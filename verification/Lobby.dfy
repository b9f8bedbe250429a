/** The lobby and relay server (server/live_server.py): consoles, sessions, requests and
    datagrams as one state machine. */
module Lobby {
  import opened Options
  import opened LobbyBook
  import opened LobbyMembers

  // ------------------------------------------------------------ what a server keeps

  class Console {
    const number: nat
    const xuid: int
    const token: Bytes
    var udp: Option<Address>
    var tokenUsed: bool

    constructor (n: nat, x: int, t: Bytes)
      ensures number == n && xuid == x && token == t && udp == None && !tokenUsed
    {
      number, xuid, token, udp, tokenUsed := n, x, t, None, false;
    }
  }

  class Session {
    const id: Bytes
    const host: Console
    const props: Bytes
    const contexts: Bytes
    var flags: int
    var open: nat
    var closed: nat
    var members: map<int, bool>
    var state: string

    constructor (i: Bytes, h: Console, args: CreateArgs)
      requires args.Fits()
      ensures id == i && host == h && flags == args.flags && open == args.open && closed == args.closed
      ensures props == args.props && contexts == args.contexts && members == map[] && state == "lobby"
      ensures Fits()
    {
      id, host, flags, open, closed := i, h, args.flags, args.open, args.closed;
      props, contexts, members, state := args.props, args.contexts, map[], "lobby";
    }

    ghost predicate Fits()
      reads this
    {
      open <= 64 && closed <= 64 && |members| <= MAX_MEMBERS && |state| <= 16 && |props| <= 4096 && |contexts| <= 1024
    }

    /** What others see of it. */
    function View(): Room
      reads this
    {
      Room(host.number, flags, open, closed, props, contexts, members, state)
    }

    /** Members in open slots. */
    function Taken(): nat
      reads this
    {
      |set xuid | xuid in members && !members[xuid]|
    }

    /** JOIN: any console may add members to any session; a refusal keeps those added before it. */
    method Join(slots: seq<Option<Slot>>) returns (ok: bool)
      requires Fits()
      modifies `members
      ensures Fits() && (members, ok) == Joined(old(members), slots)
    {
      JoinedFits(members, slots);
      for k := 0 to |slots|
        invariant Joined(members, slots[k..]) == Joined(old(members), slots)
      {
        assert slots[k..][0] == slots[k] && slots[k..][1..] == slots[k + 1..];
        match slots[k]
        case None =>
          return false;
        case Some(slot) =>
          if slot.xuid !in members && |members| >= MAX_MEMBERS {
            return false;
          }
          members := members[slot.xuid := slot.closed];
      }
      return true;
    }

    /** LEAVE. */
    method Leave(xuids: seq<Option<int>>) returns (ok: bool)
      requires Fits()
      modifies `members
      ensures Fits() && (members, ok) == Left(old(members), xuids)
    {
      LeftFits(members, xuids);
      for k := 0 to |xuids|
        invariant Left(members, xuids[k..]) == Left(old(members), xuids)
      {
        assert xuids[k..][0] == xuids[k] && xuids[k..][1..] == xuids[k + 1..];
        match xuids[k]
        case None =>
          return false;
        case Some(xuid) =>
          members := members - {xuid};
      }
      return true;
    }

    /** MODIFY: all three or none. */
    method Modify(newFlags: Option<int>, newOpen: int, newClosed: int) returns (ok: bool)
      requires Fits()
      modifies `flags, `open, `closed
      ensures Fits()
      ensures ok <==> newFlags.Some? && 0 <= newOpen <= 64 && 0 <= newClosed <= 64
      ensures if ok then flags == newFlags.value && open == newOpen && closed == newClosed
              else flags == old(flags) && open == old(open) && closed == old(closed)
    {
      if newFlags == None || !(0 <= newOpen <= 64) || !(0 <= newClosed <= 64) {
        return false;
      }
      flags, open, closed := newFlags.value, newOpen, newClosed;
      return true;
    }

    /** STATE: the first sixteen characters. */
    method SetState(text: string)
      requires Fits()
      modifies `state
      ensures Fits() && state == if |text| <= 16 then text else text[..16]
    {
      state := if |text| <= 16 then text else text[..16];
    }
  }

  /** One TCP connection: the console it became, and whether it may. */
  datatype Link = Link(console: Option<Console>, signed: bool)

  // ------------------------------------------------------------ tables

  predicate IsLive(consoles: map<nat, Console>, c: Console) {
    c.number in consoles && consoles[c.number] == c
  }

  /** Live consoles have distinct numbers in range, and the address table is exactly theirs. */
  ghost predicate TablesFit(consoles: map<nat, Console>, byIp: map<nat, Console>) {
    && (forall n | n in consoles :: 1 <= n <= LAST_CONSOLE_NUMBER && consoles[n].number == n)
    && (forall n | n in consoles :: IpOf(n) in byIp && byIp[IpOf(n)] == consoles[n])
    && (forall ip | ip in byIp :: IsLive(consoles, byIp[ip]) && IpOf(byIp[ip].number) == ip)
  }

  function HostedBy(sessions: map<Bytes, Session>, c: Console): set<Bytes> {
    set id | id in sessions && sessions[id].host == c
  }

  /** Every session's host is live, and no console hosts too many. */
  ghost predicate HostsFit(sessions: map<Bytes, Session>, consoles: map<nat, Console>, most: nat) {
    && (forall id | id in sessions :: sessions[id].id == id && IsLive(consoles, sessions[id].host))
    && (forall n | n in consoles :: |HostedBy(sessions, consoles[n])| <= most)
  }

  ghost predicate HasLink(links: map<nat, Link>, c: Console) {
    exists k :: k in links && links[k].console == Some(c)
  }

  /** Every live console is one connection's, which gave the password if one is asked for. */
  ghost predicate LinksFit(links: map<nat, Link>, consoles: map<nat, Console>) {
    && (forall k | k in links && links[k].console.Some? :: IsLive(consoles, links[k].console.value) && links[k].signed)
    && (forall j, k | j in links && k in links && j != k && links[j].console.Some? ::
      links[k].console != links[j].console)
    && (forall n | n in consoles :: HasLink(links, consoles[n]))
  }

  lemma KeysMore<K, V>(m: map<K, V>, key: K, value: V)
    ensures |m[key := value]| == |m| + if key in m then 0 else 1
  {
    assert m[key := value].Keys == m.Keys + {key};
  }

  lemma KeysPlus<K, V>(m: map<K, V>, key: K, value: V)
    ensures m[key := value].Keys == m.Keys + {key}
  {
  }

  lemma KeysLess<K, V>(m: map<K, V>, key: K)
    ensures |m - {key}| == |m| - if key in m then 1 else 0
  {
    assert (m - {key}).Keys == m.Keys - {key};
  }

  lemma ValuesLess<K, V>(m: map<K, V>, gone: set<K>)
    ensures (m - gone).Values <= m.Values
  {
  }

  lemma {:induction false} SubsetSize<T>(a: set<T>, b: set<T>)
    requires a <= b
    ensures |a| <= |b|
  {
    if a != {} {
      var x :| x in a;
      SubsetSize(a - {x}, b - {x});
    }
  }

  lemma Relinked(links: map<nat, Link>, consoles: map<nat, Console>, k: nat, link: Link)
    requires LinksFit(links, consoles)
    requires if k in links then link.console == links[k].console && (links[k].signed ==> link.signed)
      else link.console == None
    ensures LinksFit(links[k := link], consoles)
  {
    forall n | n in consoles ensures HasLink(links[k := link], consoles[n]) {
      var j :| j in links && links[j].console == Some(consoles[n]);
      assert j in links[k := link] && links[k := link][j].console == Some(consoles[n]);
    }
  }

  lemma LinkedConsole(links: map<nat, Link>, consoles: map<nat, Console>, k: nat, c: Console)
    requires LinksFit(links, consoles) && k in links && links[k].console == None && c.number !in consoles
    ensures LinksFit(links[k := Link(Some(c), true)], consoles[c.number := c])
  {
    var links', consoles' := links[k := Link(Some(c), true)], consoles[c.number := c];
    forall n | n in consoles' ensures HasLink(links', consoles'[n]) {
      if n == c.number {
        assert links'[k].console == Some(c);
      } else {
        var j :| j in links && links[j].console == Some(consoles[n]);
        assert j in links' && links'[j].console == Some(consoles'[n]);
      }
    }
    forall i, j | i in links' && j in links' && i != j && links'[i].console.Some?
      ensures links'[j].console != links'[i].console {
      if i == k && links'[j].console.Some? {
        assert IsLive(consoles, links[j].console.value);
      } else if j == k {
        assert IsLive(consoles, links[i].console.value);
      }
    }
  }

  lemma UnlinkedConsole(links: map<nat, Link>, consoles: map<nat, Console>, byIp: map<nat, Console>, k: nat)
    requires TablesFit(consoles, byIp) && LinksFit(links, consoles) && k in links
    ensures LinksFit(links - {k}, if links[k].console.Some? then consoles - {links[k].console.value.number}
      else consoles)
  {
    var consoles' := if links[k].console.Some? then consoles - {links[k].console.value.number} else consoles;
    forall n | n in consoles' ensures HasLink(links - {k}, consoles'[n]) {
      assert HasLink(links, consoles[n]);
      var j :| j in links && links[j].console == Some(consoles[n]);
      assert j != k;
      assert j in links - {k} && (links - {k})[j].console == Some(consoles'[n]);
    }
    forall j | j in links - {k} && links[j].console.Some? ensures IsLive(consoles', links[j].console.value) {
      assert links[j].console != links[k].console;
    }
  }

  lemma MoreTables(consoles: map<nat, Console>, byIp: map<nat, Console>, c: Console)
    requires TablesFit(consoles, byIp) && 1 <= c.number <= LAST_CONSOLE_NUMBER && c.number !in consoles
    ensures TablesFit(consoles[c.number := c], byIp[IpOf(c.number) := c])
  {
  }

  lemma FewerTables(consoles: map<nat, Console>, byIp: map<nat, Console>, c: Console)
    requires TablesFit(consoles, byIp) && IsLive(consoles, c)
    ensures TablesFit(consoles - {c.number}, byIp - {IpOf(c.number)})
  {
  }

  lemma MoreHosts(sessions: map<Bytes, Session>, consoles: map<nat, Console>, most: nat, c: Console)
    requires HostsFit(sessions, consoles, most) && c.number !in consoles
    ensures HostsFit(sessions, consoles[c.number := c], most)
  {
    forall id | id in sessions ensures sessions[id].host != c {
      assert IsLive(consoles, sessions[id].host);
    }
    assert HostedBy(sessions, c) == {};
  }

  lemma OneMoreHosted(sessions: map<Bytes, Session>, session: Session, c: Console)
    requires session.id !in sessions
    ensures |HostedBy(sessions[session.id := session], c)| == |HostedBy(sessions, c)| + if session.host == c
      then 1 else 0
  {
    assert HostedBy(sessions[session.id := session], c) == HostedBy(sessions, c) + if session.host == c
      then {session.id} else {};
  }

  lemma MoreSessions(sessions: map<Bytes, Session>, consoles: map<nat, Console>, most: nat, session: Session)
    requires HostsFit(sessions, consoles, most) && session.id !in sessions && IsLive(consoles, session.host)
    requires |HostedBy(sessions, session.host)| < most
    ensures HostsFit(sessions[session.id := session], consoles, most)
  {
    var sessions' := sessions[session.id := session];
    forall n | n in consoles ensures |HostedBy(sessions', consoles[n])| <= most {
      OneMoreHosted(sessions, session, consoles[n]);
    }
    hide HostedBy;
  }

  lemma FewerSessions(sessions: map<Bytes, Session>, consoles: map<nat, Console>, most: nat, gone: set<Bytes>)
    requires HostsFit(sessions, consoles, most)
    ensures HostsFit(sessions - gone, consoles, most) && |sessions - gone| <= |sessions|
  {
    forall n | n in consoles ensures |HostedBy(sessions - gone, consoles[n])| <= most {
      SubsetSize(HostedBy(sessions - gone, consoles[n]), HostedBy(sessions, consoles[n]));
    }
    SubsetSize((sessions - gone).Keys, sessions.Keys);
  }

  lemma FewerHosts(sessions: map<Bytes, Session>, consoles: map<nat, Console>, byIp: map<nat, Console>, most: nat,
      c: Console)
    requires TablesFit(consoles, byIp) && HostsFit(sessions, consoles, most) && HostedBy(sessions, c) == {}
    ensures HostsFit(sessions, consoles - {c.number}, most) || !IsLive(consoles, c)
  {
    forall id | id in sessions ensures sessions[id].host != c {
      assert id !in HostedBy(sessions, c);
    }
  }

  /** Every registered address is that of a live console, the last it registered. */
  ghost predicate Registered(byUdp: map<Address, Console>, consoles: map<nat, Console>)
    reads byUdp.Values
  {
    forall a | a in byUdp :: IsLive(consoles, byUdp[a]) && byUdp[a].udp == Some(a)
  }

  ghost predicate AllFit(sessions: map<Bytes, Session>)
    reads sessions.Values
  {
    forall id | id in sessions :: sessions[id].Fits()
  }

  /** The address table once a console registers from an address. */
  function Moved(byUdp: map<Address, Console>, c: Console, address: Address): map<Address, Console>
    reads c
  {
    if c.udp == Some(address) then byUdp else Unregistered(byUdp, c)[address := c]
  }

  function Unregistered(byUdp: map<Address, Console>, c: Console): map<Address, Console>
    reads c
  {
    if c.udp.Some? && c.udp.value in byUdp && byUdp[c.udp.value] == c then byUdp - {c.udp.value} else byUdp
  }

  lemma UnregisteredFits(byUdp: map<Address, Console>, consoles: map<nat, Console>, c: Console)
    requires Registered(byUdp, consoles) && IsLive(consoles, c)
    ensures Registered(Unregistered(byUdp, c), consoles - {c.number})
    ensures forall a :: a in Unregistered(byUdp, c) <==> a in byUdp && byUdp[a] != c
    ensures forall a | a in Unregistered(byUdp, c) :: Unregistered(byUdp, c)[a] == byUdp[a]
  {
  }

  lemma AllFitLess(sessions: map<Bytes, Session>, gone: set<Bytes>)
    requires AllFit(sessions)
    ensures AllFit(sessions - gone)
  {
  }

  lemma AllFitMore(sessions: map<Bytes, Session>, session: Session)
    requires AllFit(sessions) && session.Fits()
    ensures AllFit(sessions[session.id := session])
  {
  }

  class Service {
    const settings: Settings
    var consoles: map<nat, Console>
    var byIp: map<nat, Console>
    var byUdp: map<Address, Console>
    var sessions: map<Bytes, Session>
    var order: seq<Bytes>   // of the sessions, as the dictionary keeps it
    var nextNumber: nat
    var links: map<nat, Link>

    ghost predicate Limits()
      reads this
    {
      && |consoles| <= settings.maxConsoles && |sessions| <= settings.maxSessions
        && |links| <= settings.MaxConnections()
      && 1 <= nextNumber <= LAST_CONSOLE_NUMBER
    }

    ghost predicate Valid()
      reads this, byUdp.Values, sessions.Values
    {
      && Limits() && TablesFit(consoles, byIp) && HostsFit(sessions, consoles, settings.sessionsPerConsole)
      && LinksFit(links, consoles) && Registered(byUdp, consoles) && AllFit(sessions)
      && OrderFits(order, sessions.Keys)
    }

    lemma Parts()
      requires Valid()
      ensures Limits() && TablesFit(consoles, byIp) && HostsFit(sessions, consoles, settings.sessionsPerConsole)
      ensures LinksFit(links, consoles) && Registered(byUdp, consoles) && AllFit(sessions)
      ensures OrderFits(order, sessions.Keys)
      ensures |consoles| <= settings.maxConsoles && |sessions| <= settings.maxSessions
        && |links| <= settings.MaxConnections()
      ensures 1 <= nextNumber <= LAST_CONSOLE_NUMBER
    {
    }

    lemma Whole()
      requires |consoles| <= settings.maxConsoles && |sessions| <= settings.maxSessions
        && |links| <= settings.MaxConnections()
      requires 1 <= nextNumber <= LAST_CONSOLE_NUMBER
      requires TablesFit(consoles, byIp) && HostsFit(sessions, consoles, settings.sessionsPerConsole)
      requires LinksFit(links, consoles) && Registered(byUdp, consoles) && AllFit(sessions)
      requires OrderFits(order, sessions.Keys)
      ensures Valid()
    {
    }

    constructor (s: Settings)
      ensures Valid() && settings == s && consoles == map[] && sessions == map[] && links == map[]
      ensures byUdp == map[] && Shows(BookOf([]))
    {
      settings := s;
      consoles, byIp, byUdp, sessions, order, nextNumber, links := map[], map[], map[], map[], [], 1, map[];
    }

    /** new_number: the next free one, round and round; none exactly when all are taken. */
    method NewNumber() returns (number: Option<nat>)
      requires 1 <= nextNumber <= LAST_CONSOLE_NUMBER
      modifies `nextNumber
      ensures 1 <= nextNumber <= LAST_CONSOLE_NUMBER
      ensures number.None? <==> forall n | 1 <= n <= LAST_CONSOLE_NUMBER :: n in consoles
      ensures number.Some? ==> NextFree(old(nextNumber), consoles.Keys, number.value)
      ensures nextNumber == if number.Some? then number.value % LAST_CONSOLE_NUMBER + 1 else old(nextNumber)
    {
      ghost var start := nextNumber;
      for k := 0 to LAST_CONSOLE_NUMBER
        invariant nextNumber == NumberAt(start, k)
        invariant forall j: nat | j < k :: NumberAt(start, j) in consoles
      {
        var n := nextNumber;
        nextNumber := n % LAST_CONSOLE_NUMBER + 1;
        if n !in consoles {
          return Some(n);
        }
      }
      forall n | 1 <= n <= LAST_CONSOLE_NUMBER ensures n in consoles {
        EveryNumberTried(start, n);
      }
      return None;
    }

    // ---------------------------------------------------------- connections

    /** A connection, unless there are too many: without a password it may say HELLO at once. */
    method Open(k: nat) returns (accepted: bool)
      requires Valid() && k !in links
      modifies `links
      ensures Valid()
      ensures accepted <==> |old(links)| < settings.MaxConnections()
      ensures links == if accepted then old(links)[k := Link(None, settings.password == [])] else old(links)
    {
      hide *;
      Parts();
      if |links| >= settings.MaxConnections() {
        return false;
      }
      var link := Link(None, settings.password == []);
      KeysMore(links, k, link);
      Relinked(links, consoles, k, link);
      links := links[k := link];
      Whole();
      return true;
    }

    /** PASS: the right password signs the connection; a wrong one closes it. */
    method Pass(k: nat, given: Bytes) returns (answer: Reply, closing: bool)
      requires Valid() && k in links
      modifies `links
      ensures Valid()
      ensures closing <==> settings.password != [] && given != settings.password
      ensures answer == if closing then Error else Ok
      ensures links == if closing then old(links) else old(links)[k := Link(old(links)[k].console, true)]
    {
      hide *;
      Parts();
      if settings.password != [] && given != settings.password {
        return Error, true;
      }
      var link := Link(links[k].console, true);
      KeysMore(links, k, link);
      Relinked(links, consoles, k, link);
      links := links[k := link];
      Whole();
      return Ok, false;
    }

    /** HELLO: a console with a free number, its token, and its address in the table. */
    method SayHello(k: nat, xuid: Option<int>, token: Bytes) returns (console: Option<Console>)
      requires Valid() && k in links
      modifies `consoles, `byIp, `links, `nextNumber
      ensures Valid()
      ensures console.Some? <==>
        && old(links)[k].console == None && old(links)[k].signed && |old(consoles)| < settings.maxConsoles && xuid.Some?
        && exists n :: 1 <= n <= LAST_CONSOLE_NUMBER && n !in old(consoles)
      ensures console.Some? ==>
        var c := console.value;
        && fresh(c) && c.number !in old(consoles)
        && c.xuid == xuid.value && c.token == token && c.udp == None && !c.tokenUsed
        && consoles == old(consoles)[c.number := c] && links == old(links)[k := Link(Some(c), true)]
        && NextFree(old(nextNumber), old(consoles).Keys, c.number)
        && nextNumber == c.number % LAST_CONSOLE_NUMBER + 1
      ensures console == None ==>
        consoles == old(consoles) && byIp == old(byIp) && links == old(links) && nextNumber == old(nextNumber)
    {
      hide *;
      Parts();
      if links[k].console.Some? || !links[k].signed || |consoles| >= settings.maxConsoles || xuid == None {
        return None;
      }
      ghost var nextBefore := nextNumber;
      var number := NewNumber();
      Whole();
      if number == None {
        return None;
      }
      FreeInRange(nextBefore, consoles.Keys, number.value);
      var c := new Console(number.value, xuid.value, token);
      AddConsole(k, c);
      return Some(c);
    }

    method AddConsole(k: nat, c: Console)
      requires Valid() && k in links && links[k] == Link(None, true) && |consoles| < settings.maxConsoles
      requires 1 <= c.number <= LAST_CONSOLE_NUMBER && c.number !in consoles
      modifies `consoles, `byIp, `links
      ensures Valid()
      ensures consoles == old(consoles)[c.number := c] && links == old(links)[k := Link(Some(c), true)]
    {
      hide *;
      Parts();
      KeysMore(consoles, c.number, c);
      KeysMore(links, k, Link(Some(c), true));
      LinkedConsole(links, consoles, k, c);
      MoreTables(consoles, byIp, c);
      MoreHosts(sessions, consoles, settings.sessionsPerConsole, c);
      RegisteredMore(byUdp, consoles, c);
      links := links[k := Link(Some(c), true)];
      consoles := consoles[c.number := c];
      byIp := byIp[IpOf(c.number) := c];
      Whole();
    }

    /** goodbye, when a connection ends: its console leaves every table, the sessions it hosts
        close, and it is no longer a member of any other. */
    method Close(k: nat)
      requires Valid() && k in links
      modifies this, sessions.Values
      ensures Valid() && links == old(links) - {k} && nextNumber == old(nextNumber)
      ensures old(links)[k].console == None ==>
        && consoles == old(consoles) && byIp == old(byIp) && byUdp == old(byUdp) && sessions == old(sessions)
        && order == old(order) && forall id | id in sessions :: unchanged(sessions[id])
      ensures old(links)[k].console.Some? ==> Departed(old(links)[k].console.value)
      ensures consoles.Values <= old(consoles.Values) && sessions.Values <= old(sessions.Values)
    {
      hide *;
      Parts();
      UnlinkedConsole(links, consoles, byIp, k);
      KeysLess(links, k);
      var console := links[k].console;
      if console.Some? {
        LiveOf(links, consoles, k);
        Withdraw(k, console.value);
        DepartedValues(console.value);
      } else {
        links := links - {k};
        Whole();
      }
    }

    method Withdraw(k: nat, c: Console)
      requires Valid() && k in links && links[k].console == Some(c) && IsLive(consoles, c)
      requires LinksFit(links - {k}, consoles - {c.number})
      modifies this, sessions.Values
      ensures Valid() && links == old(links) - {k} && nextNumber == old(nextNumber) && Departed(c)
    {
      hide *;
      DropHosted(c);
      DropAddress(c);
      NotHeard(byUdp, c);
      DropConsole(k, c);
      ForgetMember(c.xuid);
      HasDeparted(c);
    }

    /** The sessions it hosts close. */
    method DropHosted(c: Console)
      requires Valid()
      modifies `sessions, `order
      ensures Valid() && sessions == old(sessions) - HostedBy(old(sessions), c) && HostedBy(sessions, c) == {}
      ensures order == Kept(old(order), sessions.Keys)
    {
      hide *;
      Parts();
      var hosted := HostedBy(sessions, c);
      FewerSessions(sessions, consoles, settings.sessionsPerConsole, hosted);
      NoneHosted(sessions, c);
      AllFitLess(sessions, hosted);
      KeptFits(order, sessions.Keys, sessions.Keys - hosted);
      sessions, order := sessions - hosted, Kept(order, sessions.Keys - hosted);
      Whole();
    }

    /** Its address, when it is still its own. */
    method DropAddress(c: Console)
      requires Valid() && IsLive(consoles, c)
      modifies `byUdp
      ensures Valid()
      ensures forall a :: a in byUdp <==> a in old(byUdp) && old(byUdp)[a] != c
      ensures forall a | a in byUdp :: byUdp[a] == old(byUdp)[a]
    {
      hide *;
      Parts();
      UnregisteredFits(byUdp, consoles, c);
      FewerRegistered(byUdp, Unregistered(byUdp, c), consoles);
      byUdp := Unregistered(byUdp, c);
      Whole();
    }

    /** New connection and console tables that fit each other and what stays. */
    method Put(newLinks: map<nat, Link>, newConsoles: map<nat, Console>, newIps: map<nat, Console>)
      requires Valid() && LinksFit(newLinks, newConsoles) && TablesFit(newConsoles, newIps)
      requires HostsFit(sessions, newConsoles, settings.sessionsPerConsole) && Registered(byUdp, newConsoles)
      requires |newConsoles| <= settings.maxConsoles && |newLinks| <= settings.MaxConnections()
      modifies `links, `consoles, `byIp
      ensures Valid() && links == newLinks && consoles == newConsoles && byIp == newIps
    {
      hide *;
      Parts();
      links, consoles, byIp := newLinks, newConsoles, newIps;
      Whole();
    }

    /** Its number, its network address and its connection. */
    method DropConsole(k: nat, c: Console)
      requires Valid() && k in links && IsLive(consoles, c) && LinksFit(links - {k}, consoles - {c.number})
      requires HostedBy(sessions, c) == {} && Unheard(byUdp, c)
      modifies `links, `consoles, `byIp
      ensures Valid() && links == old(links) - {k} && consoles == old(consoles) - {c.number}
        && byIp == old(byIp) - {IpOf(c.number)}
    {
      hide *;
      Parts();
      DropFits(links, consoles, byIp, sessions, settings.sessionsPerConsole, k, c);
      RegisteredLess(byUdp, consoles, c);
      Put(links - {k}, consoles - {c.number}, byIp - {IpOf(c.number)});
    }

    method ForgetMember(xuid: int)
      requires Valid()
      modifies sessions.Values
      ensures Valid()
      ensures forall id | id in sessions ::
        sessions[id].View() == old(sessions[id].View()).(members := old(sessions[id].members) - {xuid})
    {
      hide *;
      Parts();
      Forget(xuid);
      Whole();
    }

    twostate lemma DepartedValues(c: Console)
      requires Departed(c)
      ensures consoles.Values <= old(consoles.Values) && sessions.Values <= old(sessions.Values)
    {
      ValuesLess(old(consoles), {c.number});
      ValuesLess(old(sessions), HostedBy(old(sessions), c));
    }

    twostate lemma HasDeparted(c: Console)
      requires consoles == old(consoles) - {c.number} && byIp == old(byIp) - {IpOf(c.number)}
      requires sessions == old(sessions) - HostedBy(old(sessions), c) && order == Kept(old(order), sessions.Keys)
      requires forall a :: a in byUdp <==> a in old(byUdp) && old(byUdp)[a] != c
      requires forall a | a in byUdp :: byUdp[a] == old(byUdp)[a]
      requires forall id | id in sessions ::
        sessions[id].View() == old(sessions[id].View()).(members := old(sessions[id].members) - {c.xuid})
      ensures Departed(c)
    {
    }

    /** What a departure leaves: nothing leads to the console any more. */
    twostate predicate Departed(c: Console)
      reads this, sessions.Values
    {
      && consoles == old(consoles) - {c.number} && byIp == old(byIp) - {IpOf(c.number)}
      && (forall a :: a in byUdp <==> a in old(byUdp) && old(byUdp)[a] != c)
      && (forall a | a in byUdp :: byUdp[a] == old(byUdp)[a])
      && sessions == old(sessions) - HostedBy(old(sessions), c) && order == Kept(old(order), sessions.Keys)
      && (forall id | id in sessions ::
        sessions[id].View() == old(sessions[id].View()).(members := old(sessions[id].members) - {c.xuid}))
    }

    /** The member leaves every session. */
    method Forget(xuid: int)
      requires AllFit(sessions)
      modifies sessions.Values
      ensures AllFit(sessions)
      ensures forall id | id in sessions ::
        sessions[id].View() == old(sessions[id].View()).(members := old(sessions[id].members) - {xuid})
    {
      forall session | session in sessions.Values {
        session.members := session.members - {xuid};
      }
      forall id | id in sessions ensures sessions[id].Fits() {
        KeysLess(old(sessions[id].members), xuid);
        assert old(sessions[id].Fits());
      }
    }

    // ---------------------------------------------------------- requests

    /** CREATE: a session hosted by the console, when neither limit is reached and the words read. */
    method CreateSession(c: Console, args: Option<CreateArgs>, id: Bytes) returns (answer: Reply)
      requires Valid() && IsLive(consoles, c) && id !in sessions
      modifies `sessions, `order
      ensures Valid()
      ensures answer == if |old(sessions)| < settings.maxSessions
          && |HostedBy(old(sessions), c)| < settings.sessionsPerConsole && args.Some? && args.value.Fits()
        then Created(id) else Error
      ensures answer.Created? ==>
        && id in sessions && fresh(sessions[id]) && sessions == old(sessions)[id := sessions[id]]
        && order == old(order) + [id] && sessions[id].host == c
        && sessions[id].View() == Room(c.number, args.value.flags, args.value.open, args.value.closed,
                                       args.value.props, args.value.contexts, map[], "lobby")
      ensures !answer.Created? ==> sessions == old(sessions) && order == old(order)
    {
      hide *;
      Parts();
      if |sessions| >= settings.maxSessions || |HostedBy(sessions, c)| >= settings.sessionsPerConsole {
        return Error;
      }
      if args == None || !args.value.Fits() {
        return Error;
      }
      var session := new Session(id, c, args.value);
      MadeAs(session, args.value);
      Add(session);
      return Created(id);
    }

    method Add(session: Session)
      requires Valid() && session.id !in sessions && IsLive(consoles, session.host) && session.Fits()
      requires |sessions| < settings.maxSessions && |HostedBy(sessions, session.host)| < settings.sessionsPerConsole
      modifies `sessions, `order
      ensures Valid() && sessions == old(sessions)[session.id := session] && order == old(order) + [session.id]
    {
      hide *;
      Parts();
      KeysMore(sessions, session.id, session);
      MoreSessions(sessions, consoles, settings.sessionsPerConsole, session);
      AllFitMore(sessions, session);
      OneMore(order, sessions.Keys, session.id);
      KeysPlus(sessions, session.id, session);
      sessions, order := sessions[session.id := session], order + [session.id];
      Whole();
    }

    lemma MadeAs(session: Session, args: CreateArgs)
      requires args.Fits() && session.flags == args.flags && session.open == args.open && session.closed == args.closed
      requires session.props == args.props && session.contexts == args.contexts
      requires session.members == map[] && session.state == "lobby"
      ensures session.View() == Room(session.host.number, args.flags, args.open, args.closed, args.props,
                                     args.contexts, map[], "lobby")
    {
    }

    /** DELETE: any console may delete any session, and one that is not there is no error. */
    method DeleteSession(id: Option<Bytes>) returns (answer: Reply)
      requires Valid()
      modifies `sessions, `order
      ensures Valid() && answer == if id.Some? then Ok else Error
      ensures id.Some? ==>
        sessions == old(sessions) - {id.value} && order == Kept(old(order), old(sessions).Keys - {id.value})
      ensures id == None ==> sessions == old(sessions) && order == old(order)
    {
      hide *;
      if id == None {
        return Error;
      }
      Parts();
      FewerSessions(sessions, consoles, settings.sessionsPerConsole, {id.value});
      AllFitLess(sessions, {id.value});
      KeptFits(order, sessions.Keys, sessions.Keys - {id.value});
      sessions, order := sessions - {id.value}, Kept(order, sessions.Keys - {id.value});
      Whole();
      return Ok;
    }

    /** JOIN, LEAVE, MODIFY and STATE, on the session they name. */
    method ChangeSession(session: Session, request: Request) returns (ok: bool)
      requires Valid() && session in sessions.Values
      requires request.Join? || request.Leave? || request.Modify? || request.SetState?
      modifies session
      ensures Valid() && (session.View(), ok) == ChangeOf(old(session.View()), request)
      ensures request.Join? ==>
        && session.View() == old(session.View()).(members := session.members)
        && (session.members, ok) == Joined(old(session.members), request.slots)
      ensures request.Leave? ==>
        && session.View() == old(session.View()).(members := session.members)
        && (session.members, ok) == Left(old(session.members), request.xuids)
      ensures request.Modify? ==>
        && ok == (request.flags.Some? && 0 <= request.open <= 64 && 0 <= request.closed <= 64)
        && session.View() == old(session.View()).(flags := session.flags, open := session.open,
          closed := session.closed)
        && (if ok then (session.flags, session.open as int, session.closed as int) ==
              (request.flags.value, request.open, request.closed)
            else session.View() == old(session.View()))
      ensures request.SetState? ==>
        && ok == request.state.Some? && session.View() == old(session.View()).(state := session.state)
        && session.state == if !ok then old(session.state)
          else if |request.state.value| <= 16 then request.state.value else request.state.value[..16]
    {
      hide TablesFit, HostsFit, LinksFit, AllFit, Limits, Registered, Valid, OrderFits, Joined, Left, Session.Fits;
      Parts();
      SessionsApart(sessions, consoles, settings.sessionsPerConsole);
      FitsAt(sessions, session.id);
      match request {
      case Join(_, slots) =>
        ok := session.Join(slots);
      case Leave(_, xuids) =>
        ok := session.Leave(xuids);
      case Modify(_, flags, open, closed) =>
        ok := session.Modify(flags, open, closed);
      case SetState(_, state) =>
        ok := state.Some?;
        if ok {
          session.SetState(state.value);
        }
      }
      OneChanged(session.id);
      Whole();
    }

    twostate lemma OneChanged(id: Bytes)
      requires sessions == old(sessions) && old(AllFit(sessions)) && id in sessions && sessions[id].Fits()
      requires forall other | other in sessions :: sessions[other].id == other
      requires forall session: Session | session in sessions.Values && session != sessions[id] :: unchanged(session)
      ensures AllFit(sessions)
    {
      forall other | other in sessions ensures sessions[other].Fits() {
        assert old(sessions[other].Fits()) && sessions[other] in sessions.Values;
      }
    }

    /** A session another console may find: waiting, with an open slot. */
    predicate IsOpenTo(c: Console, id: Bytes)
      reads this, sessions.Values
    {
      && id in sessions && sessions[id].host != c && sessions[id].state == "lobby"
      && sessions[id].Taken() < sessions[id].open
    }

    function OpenTo(c: Console): set<Bytes>
      reads this, sessions.Values
    {
      set id | id in sessions && IsOpenTo(c, id)
    }

    /** SEARCH: findable sessions in the order they were made, up to the limit. */
    method SearchSessions(c: Console, limit: Option<int>) returns (answer: Reply)
      ensures answer == if limit.Some?
        then Found(Limited(Kept(order, OpenTo(c)), limit.value)) else Error
    {
      if limit == None {
        return Error;
      }
      var found: seq<Bytes> := [];
      for i := 0 to |order|
        invariant found == Kept(order[..i], OpenTo(c))
      {
        assert order[..i + 1][..i] == order[..i];
        if IsOpenTo(c, order[i]) {
          found := found + [order[i]];
        }
      }
      assert order[..|order|] == order;
      var most := if limit.value < 50 then limit.value else 50;
      if most >= 0 {
        return Found(found[..if most < |found| then most else |found|]);
      }
      return Found(if |found| + most >= 0 then found[..|found| + most] else []);
    }

    // ---------------------------------------------------------- datagrams

    /** Whether a registration counts: it has the console's token, or comes from a game without
        one, where no password is asked and no token was used before. */
    predicate Taken(c: Console, data: Bytes)
      reads c
      requires |data| >= 5
    {
      if |data| >= 13 then data[5..13] == c.token else settings.password == [] && !c.tokenUsed
    }

    predicate Registers(data: Bytes)
      reads this, consoles.Values
    {
      |data| >= 5 && data[0] == 0 && U32(data, 1) in consoles && Taken(consoles[U32(data, 1)], data)
    }

    /** A datagram that is handed on comes from the address of the console it names as its
        source, and its destination has an address. */
    predicate Relays(data: Bytes, address: Address)
      reads this, byIp.Values
    {
      && |data| >= 13 && data[0] == 1 && address in byUdp && U32(data, 7) == IpOf(byUdp[address].number)
      && U32(data, 1) in byIp && byIp[U32(data, 1)].udp.Some?
    }

    /** A registration that counts gives its console the address it came from; any other
        changes nothing. */
    method Register(data: Bytes, address: Address) returns (taken: bool)
      requires Valid() && |data| >= 5 && data[0] == 0
      modifies `byUdp, consoles.Values
      ensures Valid()
      ensures taken == old(Registers(data))
      ensures !old(Registers(data)) ==> byUdp == old(byUdp) && forall n | n in consoles :: unchanged(consoles[n])
      ensures old(Registers(data)) ==> byUdp == old(Moved(byUdp, consoles[U32(data, 1)], address))
      ensures old(Registers(data)) ==> forall n | n in consoles ::
        if n == U32(data, 1)
        then consoles[n].udp == Some(address) && consoles[n].tokenUsed == (old(consoles[n].tokenUsed) || |data| >= 13)
        else unchanged(consoles[n])
    {
      hide TablesFit, HostsFit, LinksFit, AllFit, Limits, Registered, Moved, U32, Valid;
      Parts();
      var number := U32(data, 1);
      if number !in consoles {
        return false;
      }
      var c := consoles[number];
      NumbersApart(consoles, byIp);
      if |data| >= 13 {
        if data[5..13] != c.token {
          return false;
        }
      } else if settings.password != [] || c.tokenUsed {
        return false;
      }
      MoveTo(c, |data| >= 13, address);
      return true;
    }

    method MoveTo(c: Console, token: bool, address: Address)
      requires Valid() && IsLive(consoles, c)
      modifies `byUdp, c
      ensures Valid() && byUdp == old(Moved(byUdp, c, address))
      ensures c.udp == Some(address) && c.tokenUsed == (old(c.tokenUsed) || token)
    {
      hide *;
      Parts();
      MovedFits(byUdp, consoles, c, address);
      MovedIs(byUdp, c, address);
      if c.udp != Some(address) {
        byUdp := Unregistered(byUdp, c);
        byUdp := byUdp[address := c];
        c.udp := Some(address);
      }
      if token {
        c.tokenUsed := true;
      }
      RegisteredNow(byUdp, consoles, c, address);
      Whole();
    }

    /** datagram_received. */
    method Receive(data: Bytes, address: Address) returns (entry: Entry)
      requires Valid()
      modifies `byUdp, consoles.Values
      ensures Valid()
      ensures entry ==
        if old(Registers(data)) then Registration(U32(data, 1), address, |data| >= 13)
        else if old(Relays(data, address)) then Relay(data, address, old(byIp[U32(data, 1)].udp.value))
        else Nothing
      ensures !entry.Registration? ==> byUdp == old(byUdp) && forall n | n in consoles :: unchanged(consoles[n])
      ensures entry.Registration? ==>
        && byUdp == old(Moved(byUdp, consoles[entry.number], address))
        && forall n | n in consoles ::
          if n == entry.number
          then consoles[n].udp == Some(address) && consoles[n].tokenUsed == (old(consoles[n].tokenUsed) || entry.full)
          else unchanged(consoles[n])
    {
      hide TablesFit, HostsFit, LinksFit, AllFit, Limits, Registered, Moved, U32, Valid, IpBytes, Taken;
      if |data| >= 5 && data[0] == 0 {
        var taken := Register(data, address);
        return if taken then Registration(U32(data, 1), address, |data| >= 13) else Nothing;
      }
      if |data| >= 13 && data[0] == 1 && address in byUdp {
        Parts();
        var sender := byUdp[address];
        SenderNumber(byUdp, consoles, byIp, address);
        IpBytesName(data, 7, sender.number);
        if data[7..11] == IpBytes(sender.number) && U32(data, 1) in byIp && byIp[U32(data, 1)].udp.Some? {
          return Relay(data, address, byIp[U32(data, 1)].udp.value);
        }
      }
      return Nothing;
    }

    // ---------------------------------------------------------- the book

    /** The book says what the tables say. */
    ghost predicate Shows(b: Book)
      reads this, consoles.Values, byUdp.Values, sessions.Values
    {
      b.next == nextNumber && ShowsAddresses(b) && ShowsLive(b) && ShowsLinks(b) && ShowsRooms(b)
    }

    ghost predicate ShowsRooms(b: Book)
      reads this, sessions.Values
    {
      && b.order == order && b.rooms.Keys == sessions.Keys
      && forall id | id in sessions :: b.rooms[id] == sessions[id].View()
    }

    twostate predicate RoomsKept()
      reads this, sessions.Values
    {
      sessions == old(sessions) && order == old(order) && forall id | id in sessions :: unchanged(sessions[id])
    }

    ghost predicate ShowsAddresses(b: Book)
      reads this, consoles.Values, byUdp.Values
    {
      && (forall n :: n in b.udp <==> n in consoles && consoles[n].udp.Some?)
      && (forall n | n in b.udp :: consoles[n].udp == Some(b.udp[n]))
      && (forall a :: a in b.holder <==> a in byUdp)
      && (forall a | a in b.holder :: b.holder[a] == byUdp[a].number)
    }

    ghost predicate ShowsLive(b: Book)
      reads this, consoles.Values
    {
      && b.live.Keys == consoles.Keys
      && forall n | n in consoles :: b.live[n] == Credit(consoles[n].xuid, consoles[n].token, consoles[n].tokenUsed)
    }

    ghost predicate ShowsLinks(b: Book)
      reads this
    {
      b.seats.Keys == links.Keys && forall k | k in links :: b.seats[k] == SeatOf(links[k])
    }

    twostate predicate ConsolesKept()
      reads this, consoles.Values, byUdp.Values
    {
      && consoles == old(consoles) && byUdp == old(byUdp) && nextNumber == old(nextNumber)
      && forall n | n in consoles :: unchanged(consoles[n])
    }

    /** What a datagram does by the tables it does by the book. */
    lemma RelaysAlike(b: Book, data: Bytes, address: Address)
      requires Valid() && Shows(b)
      ensures Relays(data, address) <==> RelaysBy(b, data, address)
      ensures Relays(data, address) ==> b.udp[U32(data, 1) - NETWORK] == byIp[U32(data, 1)].udp.value
    {
      hide HostsFit, LinksFit, AllFit, Limits, U32, ShowsLive, ShowsLinks;
      if |data| >= 13 && U32(data, 1) >= NETWORK {
        assert IpOf(U32(data, 1) - NETWORK) == U32(data, 1);
      }
    }

    lemma RegistersAlike(b: Book, data: Bytes)
      requires Shows(b)
      ensures Registers(data) <==> RegistersBy(settings, b, data)
    {
      hide U32, ShowsAddresses, ShowsLinks;
    }

    twostate lemma StillShows(new b: Book)
      requires old(Shows(b)) && links == old(links) && ConsolesKept() && RoomsKept()
      ensures Shows(b)
    {
    }

    /** A connection was added, or signed. */
    twostate lemma ShowsLink(new b: Book, new k: nat, new link: Link)
      requires old(Shows(b)) && links == old(links)[k := link] && ConsolesKept() && RoomsKept()
      ensures Shows(b.(seats := b.seats[k := SeatOf(link)]))
    {
    }

    twostate lemma ShowsArrival(new b: Book, new k: nat, new c: Console)
      requires old(Valid() && Shows(b)) && byUdp == old(byUdp) && c.number !in old(consoles) && c.udp == None
      requires consoles == old(consoles)[c.number := c] && links == old(links)[k := Link(Some(c), true)]
      requires nextNumber == c.number % LAST_CONSOLE_NUMBER + 1 && !c.tokenUsed
      requires RoomsKept() && forall n | n in old(consoles) :: unchanged(old(consoles)[n])
      ensures Shows(After(b, Arrival(k, c.number, c.xuid, c.token)))
    {
      hide OrderFits, HostsFit, LinksFit, AllFit, Limits, TablesFit;
      forall a | a in b.holder ensures b.holder[a] != c.number {
        assert IsLive(old(consoles), byUdp[a]);
      }
    }

    twostate lemma ShowsDeparture(new b: Book, new k: nat, c: Console)
      requires old(Valid() && Shows(b)) && old(IsLive(consoles, c)) && Departed(c)
      requires consoles == old(consoles) - {c.number} && links == old(links) - {k} && nextNumber == old(nextNumber)
      requires forall n | n in consoles :: unchanged(consoles[n])
      ensures Shows(After(b, Departure(k, c.number)))
    {
      hide Valid, ShowsAddresses, ShowsRooms, Without, Deserted;
      DepartedAddresses(b, c);
      DepartedRooms(b, c);
      AddressesOf(Without(b, c.number), After(b, Departure(k, c.number)));
    }

    lemma AddressesOf(b: Book, b': Book)
      requires ShowsAddresses(b) && b'.udp == b.udp && b'.holder == b.holder
      ensures ShowsAddresses(b')
    {
    }

    twostate lemma DepartedAddresses(new b: Book, c: Console)
      requires old(Valid() && ShowsAddresses(b)) && old(IsLive(consoles, c)) && Departed(c)
      requires consoles == old(consoles) - {c.number} && forall n | n in consoles :: unchanged(consoles[n])
      ensures ShowsAddresses(Without(b, c.number))
    {
      hide OrderFits, HostsFit, LinksFit, AllFit, Limits, TablesFit;
      forall a | a in b.holder ensures b.holder[a] == c.number <==> old(byUdp)[a] == c {
        assert IsLive(old(consoles), old(byUdp)[a]);
      }
    }

    twostate lemma DepartedRooms(new b: Book, c: Console)
      requires old(Valid() && ShowsRooms(b) && ShowsLive(b)) && old(IsLive(consoles, c)) && Departed(c)
      ensures forall b': Book | b'.rooms == Deserted(Without(b, c.number), c.number).rooms
        && b'.order == Deserted(Without(b, c.number), c.number).order :: ShowsRooms(b')
    {
      hide OrderFits, LinksFit, AllFit, Limits, TablesFit, Registered, Kept, Without;
      var rooms := old(sessions);
      forall id | id in b.rooms ensures b.rooms[id].host == c.number <==> rooms[id].host == c {
        assert old(IsLive(consoles, sessions[id].host));
      }
      assert b.rooms.Keys - Hosted(b.rooms, c.number) == sessions.Keys;
    }

    twostate lemma ShowsClosing(new b: Book, new k: nat)
      requires old(Shows(b)) && links == old(links) - {k} && ConsolesKept() && RoomsKept()
      ensures Shows(After(b, Closing(k)))
    {
    }

    twostate lemma ShowsRegistration(new b: Book, c: Console, new address: Address, new full: bool)
      requires old(Valid() && Shows(b)) && old(IsLive(consoles, c)) && consoles == old(consoles)
      requires links == old(links) && nextNumber == old(nextNumber) && RoomsKept()
      requires byUdp == old(Moved(byUdp, c, address)) && c.udp == Some(address)
      requires c.tokenUsed == (old(c.tokenUsed) || full)
      requires forall n | n in consoles && n != c.number :: unchanged(consoles[n])
      ensures Shows(After(b, Registration(c.number, address, full)))
    {
      hide Valid, ShowsAddresses, ShowsLive, ShowsLinks, Heard, Used, Moved, Session.View;
      HeardAddresses(b, c, address);
      UsedAddresses(Heard(b, c.number, address), c.number, full);
      UsedLive(b, c, address, full);
    }

    twostate lemma HeardAddresses(new b: Book, c: Console, new address: Address)
      requires old(Valid() && ShowsAddresses(b)) && old(IsLive(consoles, c)) && consoles == old(consoles)
      requires byUdp == old(Moved(byUdp, c, address)) && c.udp == Some(address)
      requires forall n | n in consoles && n != c.number :: consoles[n].udp == old(consoles[n].udp)
      ensures ShowsAddresses(Heard(b, c.number, address))
    {
      hide HostsFit, LinksFit, AllFit, Limits, TablesFit, Heard, Moved, ShowsAddresses;
      HeardLast(b, c, address);
      HeardHolders(b, c, address);
      ShowsAddressesIs(Heard(b, c.number, address));
    }

    lemma ShowsAddressesIs(b: Book)
      requires forall n :: n in b.udp <==> n in consoles && consoles[n].udp.Some?
      requires forall n | n in b.udp :: consoles[n].udp == Some(b.udp[n])
      requires forall a :: a in b.holder <==> a in byUdp
      requires forall a | a in b.holder :: b.holder[a] == byUdp[a].number
      ensures ShowsAddresses(b)
    {
    }

    twostate lemma HeardLast(new b: Book, c: Console, new address: Address)
      requires old(ShowsAddresses(b)) && old(IsLive(consoles, c)) && consoles == old(consoles) && c.udp == Some(address)
      requires forall n | n in consoles && n != c.number :: consoles[n].udp == old(consoles[n].udp)
      ensures var after := Heard(b, c.number, address);
        && (forall n :: n in after.udp <==> n in consoles && consoles[n].udp.Some?)
        && forall n | n in after.udp :: consoles[n].udp == Some(after.udp[n])
    {
    }

    twostate lemma HeardHolders(new b: Book, c: Console, new address: Address)
      requires old(Valid() && ShowsAddresses(b)) && old(IsLive(consoles, c)) && consoles == old(consoles)
      requires byUdp == old(Moved(byUdp, c, address))
      ensures var after := Heard(b, c.number, address);
        && (forall a :: a in after.holder <==> a in byUdp)
        && forall a | a in after.holder :: after.holder[a] == byUdp[a].number
    {
      hide HostsFit, LinksFit, AllFit, Limits, TablesFit;
      forall a | a in b.holder ensures b.holder[a] == c.number <==> old(byUdp)[a] == c {
        assert IsLive(old(consoles), old(byUdp)[a]);
      }
    }

    lemma UsedAddresses(b: Book, n: nat, full: bool)
      ensures ShowsAddresses(Used(b, n, full)) <==> ShowsAddresses(b)
    {
    }

    twostate lemma UsedLive(new b: Book, c: Console, new address: Address, new full: bool)
      requires old(ShowsLive(b) && ShowsLinks(b)) && old(IsLive(consoles, c)) && consoles == old(consoles)
      requires links == old(links) && nextNumber == old(nextNumber) && b.next == nextNumber
      requires c.tokenUsed == (old(c.tokenUsed) || full)
      requires forall n | n in consoles && n != c.number :: unchanged(consoles[n])
      ensures var after := Used(Heard(b, c.number, address), c.number, full);
        after.next == nextNumber && ShowsLive(after) && ShowsLinks(after)
    {
    }

    // ---------------------------------------------------------- every sequence of events

    /** Connections are opened once, and session ids are new. */
    predicate Possible(e: Event)
      reads this
    {
      match e
      case Opened(k) => k !in links
      case Password(k, _) => k in links
      case Greeting(k, _, _) => k in links
      case Asked(k, request) => k in links && (request.Create? ==> request.made !in sessions)
      case Ended(k) => k in links
      case Datagram(_, _) => true
    }

    lemma CanHappen(e: Event)
      requires Possible(e)
      ensures e.Opened? ==> e.k !in links
      ensures e.Password? || e.Greeting? || e.Asked? || e.Ended? ==> e.k in links
      ensures e.Asked? && e.request.Create? ==> e.request.made !in sessions
    {
    }

    /** A request of console c. */
    method Ask(c: Console, request: Request, ghost b: Book) returns (answer: Reply)
      requires Valid() && Shows(b) && IsLive(consoles, c) && (request.Create? ==> request.made !in sessions)
      modifies `sessions, `order, sessions.Values
      ensures Valid() && answer == ReplyTo(settings, b, c.number, request)
      ensures Shows(Obeyed(b, c.number, request, answer))
      ensures forall session: Session | session in sessions.Values :: session in old(sessions.Values) || fresh(session)
    {
      hide *;
      match request {
      case Create(_, _) =>
        answer := Make(c, request, b);
      case Search(_) =>
        answer := Look(c, request, b);
      case Delete(_) =>
        answer := Remove(c, request, b);
      case _ =>
        answer := Change(c, request, b);
      }
    }

    method Make(c: Console, request: Request, ghost b: Book) returns (answer: Reply)
      requires Valid() && Shows(b) && IsLive(consoles, c) && request.Create? && request.made !in sessions
      modifies `sessions, `order
      ensures Valid() && answer == ReplyTo(settings, b, c.number, request)
      ensures Shows(Obeyed(b, c.number, request, answer))
      ensures forall session: Session | session in sessions.Values :: session in old(sessions.Values) || fresh(session)
    {
      hide *;
      RoomsAre(b);
      HostedAlike(b, c);
      ReplyIs(b, c.number, request);
      answer := CreateSession(c, request.args, request.made);
      NothingElse();
      if answer == Error {
        RoomsSame();
      }
      ShowsMade(b, c.number, request, answer);
    }

    method Look(c: Console, request: Request, ghost b: Book) returns (answer: Reply)
      requires Valid() && Shows(b) && IsLive(consoles, c) && request.Search?
      ensures answer == ReplyTo(settings, b, c.number, request) && Shows(Obeyed(b, c.number, request, answer))
    {
      hide *;
      RoomsAre(b);
      FindableAlike(b, c);
      ReplyIs(b, c.number, request);
      answer := SearchSessions(c, request.limit);
      ObeyedIs(b, c.number, request, answer);
    }

    method Remove(c: Console, request: Request, ghost b: Book) returns (answer: Reply)
      requires Valid() && Shows(b) && request.Delete?
      modifies `sessions, `order
      ensures Valid() && answer == ReplyTo(settings, b, c.number, request)
      ensures Shows(Obeyed(b, c.number, request, answer)) && sessions.Values <= old(sessions.Values)
    {
      hide *;
      ReplyIs(b, c.number, request);
      answer := DeleteSession(request.id);
      NothingElse();
      if request.id == None {
        RoomsSame();
      } else {
        ValuesLess(old(sessions), {request.id.value});
      }
      ShowsDeleted(b, c.number, request, answer);
    }

    method Change(c: Console, request: Request, ghost b: Book) returns (answer: Reply)
      requires Valid() && Shows(b) && (request.Join? || request.Leave? || request.Modify? || request.SetState?)
      modifies sessions.Values
      ensures Valid() && answer == ReplyTo(settings, b, c.number, request)
      ensures Shows(Obeyed(b, c.number, request, answer))
    {
      hide *;
      RoomsAre(b);
      NothingChanges(b, c.number, request);
      if request.id == None || request.id.value !in sessions {
        return Error;
      }
      Parts();
      SessionsApart(sessions, consoles, settings.sessionsPerConsole);
      var ok := ChangeSession(sessions[request.id.value], request);
      answer := if ok then Ok else Error;
      NothingElse();
      ShowsChanged(b, c.number, request, answer);
    }

    lemma NothingChanges(b: Book, n: nat, request: Request)
      requires request.Join? || request.Leave? || request.Modify? || request.SetState?
      ensures !(request.id.Some? && request.id.value in b.rooms) ==>
        Obeyed(b, n, request, Error) == b && ReplyTo(settings, b, n, request) == Error
    {
      hide ChangeOf;
    }

    lemma RoomsAre(b: Book)
      requires Shows(b)
      ensures b.rooms.Keys == sessions.Keys && b.order == order && |b.rooms| == |sessions|
      ensures forall id | id in sessions :: b.rooms[id] == sessions[id].View()
      ensures b.live.Keys == consoles.Keys
    {
      assert |b.rooms| == |b.rooms.Keys| && |sessions| == |sessions.Keys|;
    }

    lemma HostedAlike(b: Book, c: Console)
      requires Valid() && Shows(b) && IsLive(consoles, c)
      ensures Hosted(b.rooms, c.number) == HostedBy(sessions, c)
    {
      hide OrderFits, LinksFit, AllFit, Limits, TablesFit, Registered, ShowsAddresses, ShowsLive, ShowsLinks;
      forall id | id in sessions ensures b.rooms[id].host == c.number <==> sessions[id].host == c {
        assert IsLive(consoles, sessions[id].host);
      }
    }

    lemma FindableAlike(b: Book, c: Console)
      requires Valid() && Shows(b) && IsLive(consoles, c)
      ensures FindableTo(b, c.number) == OpenTo(c)
    {
      hide OrderFits, LinksFit, AllFit, Limits, TablesFit, Registered, ShowsAddresses, ShowsLive, ShowsLinks;
      forall id | id in sessions ensures b.rooms[id].host == c.number <==> sessions[id].host == c {
        assert IsLive(consoles, sessions[id].host);
      }
    }

    /** The cases of an answer. */
    lemma ReplyIs(b: Book, n: nat, request: Request)
      ensures request.Create? ==>
        ReplyTo(settings, b, n, request) ==
        if |b.rooms| < settings.maxSessions && |Hosted(b.rooms, n)| < settings.sessionsPerConsole
          && request.args.Some? && request.args.value.Fits()
        then Created(request.made) else Error
      ensures request.Search? ==>
        ReplyTo(settings, b, n, request) ==
        if request.limit.Some? then Found(Limited(Kept(b.order, FindableTo(b, n)), request.limit.value)) else Error
      ensures request.Delete? ==> ReplyTo(settings, b, n, request) == if request.id.Some? then Ok else Error
    {
    }

    lemma ObeyedIs(b: Book, n: nat, request: Request, reply: Reply)
      requires request.Search?
      ensures Obeyed(b, n, request, reply) == b
    {
    }

    twostate lemma ShowsMade(new b: Book, new n: nat, new request: Request, new answer: Reply)
      requires old(Shows(b)) && request.Create? && ConsolesKept() && links == old(links)
      requires answer == Error ==> RoomsKept()
      requires answer == Created(request.made) || answer == Error
      requires answer.Created? ==>
        && request.args.Some? && request.made in sessions
        && sessions == old(sessions)[request.made := sessions[request.made]] && order == old(order) + [request.made]
        && sessions[request.made].View() ==
          Room(n, request.args.value.flags, request.args.value.open, request.args.value.closed,
               request.args.value.props, request.args.value.contexts, map[], "lobby")
      requires forall id | id in old(sessions) :: unchanged(old(sessions)[id])
      ensures Shows(Obeyed(b, n, request, answer))
    {
      hide Kept, ShowsAddresses;
      AddressesKept(b);
      AddressesOf(b, Obeyed(b, n, request, answer));
    }

    twostate lemma AddressesKept(new b: Book)
      requires old(ShowsAddresses(b)) && ConsolesKept()
      ensures ShowsAddresses(b)
    {
    }

    twostate lemma ShowsChanged(new b: Book, new n: nat, new request: Request, new answer: Reply)
      requires old(Shows(b)) && (request.Join? || request.Leave? || request.Modify? || request.SetState?)
      requires ConsolesKept() && links == old(links) && sessions == old(sessions) && order == old(order)
      requires request.id.Some? && request.id.value in sessions && (answer == Ok || answer == Error)
      requires (sessions[request.id.value].View(), answer == Ok) ==
        ChangeOf(old(sessions[request.id.value].View()), request)
      requires forall other | other in sessions && other != request.id.value :: unchanged(sessions[other])
      ensures Shows(Obeyed(b, n, request, answer)) && answer == ReplyTo(settings, b, n, request)
    {
      hide Kept, ShowsAddresses, ChangeOf;
      AddressesKept(b);
      AddressesOf(b, Obeyed(b, n, request, answer));
    }

    twostate lemma ShowsDeleted(new b: Book, new n: nat, new request: Request, new answer: Reply)
      requires old(Shows(b)) && request.Delete? && ConsolesKept() && links == old(links)
      requires request.id == None ==> RoomsKept()
      requires request.id.Some? ==>
        && sessions == old(sessions) - {request.id.value}
        && order == Kept(old(order), old(sessions).Keys - {request.id.value})
      requires forall id | id in sessions :: unchanged(sessions[id])
      ensures Shows(Obeyed(b, n, request, answer))
    {
      hide Kept, ShowsAddresses;
      AddressesKept(b);
      AddressesOf(b, Obeyed(b, n, request, answer));
    }

    /** A request on a connection, as the book has it; before HELLO there is none. */
    method Answer(k: nat, request: Request, ghost b: Book) returns (entry: Entry)
      requires Valid() && Shows(b) && k in links && (request.Create? ==> request.made !in sessions)
      modifies `sessions, `order, sessions.Values
      ensures Valid() && Shows(After(b, entry)) && Records(settings, b, Asked(k, request), entry)
      ensures forall session: Session | session in sessions.Values :: session in old(sessions.Values) || fresh(session)
    {
      hide *;
      Parts();
      SeatsAre(b);
      RoomsAre(b);
      AskedIs(b, k, links[k], request);
      if links[k].console == None {
        entry := Nothing;
        NothingShows(b);
      } else {
        LiveOf(links, consoles, k);
        var c := links[k].console.value;
        var answer := Ask(c, request, b);
        entry := Requested(k, c.number, request, answer);
      }
    }

    lemma AskedIs(b: Book, k: nat, link: Link, request: Request)
      requires k in b.seats && b.seats[k] == SeatOf(link) && (request.Create? ==> request.made !in b.rooms)
      ensures link.console == None ==> Records(settings, b, Asked(k, request), Nothing)
      ensures link.console.Some? ==>
        var n := link.console.value.number;
        Records(settings, b, Asked(k, request), Requested(k, n, request, ReplyTo(settings, b, n, request)))
      ensures forall n, reply :: After(b, Requested(k, n, request, reply)) == Obeyed(b, n, request, reply)
    {
    }

    /** A new connection, as the book has it. */
    method Accept(k: nat, ghost b: Book) returns (entry: Entry)
      requires Valid() && Shows(b) && k !in links
      modifies `links
      ensures Valid() && Shows(After(b, entry)) && Records(settings, b, Opened(k), entry)
    {
      hide *;
      SeatsAre(b);
      var accepted := Open(k);
      if accepted {
        entry := Connection(k, settings.password == []);
        NothingElse();
        RoomsSame();
        ShowsLink(b, k, Link(None, settings.password == []));
      } else {
        entry := Nothing;
        NothingShows(b);
      }
      AcceptedIs(b, k, entry);
    }

    lemma AcceptedIs(b: Book, k: nat, entry: Entry)
      ensures var taken := k !in b.seats && |b.seats| < settings.MaxConnections();
        Records(settings, b, Opened(k), entry) <==>
        entry == if taken then Connection(k, settings.password == []) else Nothing
      ensures forall signed :: After(b, Connection(k, signed)) == b.(seats := b.seats[k := SeatOf(Link(None, signed))])
    {
    }

    /** PASS, as the book has it. */
    method Unlock(k: nat, given: Bytes, ghost b: Book) returns (entry: Entry)
      requires Valid() && Shows(b) && k in links
      modifies this, sessions.Values
      ensures Valid() && Shows(After(b, entry)) && Records(settings, b, Password(k, given), entry)
      ensures consoles.Values <= old(consoles.Values) && sessions.Values <= old(sessions.Values)
    {
      hide *;
      SeatsAre(b);
      var link := links[k];
      var answer, closing := Pass(k, given);
      if closing {
        NothingShows(b);
        entry := End(k, b);
      } else {
        entry := Signing(k);
        NothingElse();
        RoomsSame();
        ShowsLink(b, k, Link(link.console, true));
      }
      UnlockedIs(b, k, given, link, entry);
    }

    lemma UnlockedIs(b: Book, k: nat, given: Bytes, link: Link, entry: Entry)
      requires k in b.seats && b.seats[k] == SeatOf(link)
      ensures Records(settings, b, Password(k, given), entry) <==>
        entry == if settings.password != [] && given != settings.password then Ending(b, k) else Signing(k)
      ensures After(b, Signing(k)) == b.(seats := b.seats[k := SeatOf(Link(link.console, true))])
    {
    }

    lemma SeatsAre(b: Book)
      requires Shows(b)
      ensures b.seats.Keys == links.Keys && |b.seats| == |links|
      ensures forall k | k in links :: b.seats[k] == SeatOf(links[k])
      ensures b.live.Keys == consoles.Keys && |b.live| == |consoles| && b.next == nextNumber
    {
      assert |b.seats| == |b.seats.Keys| && |links| == |links.Keys|;
      assert |b.live| == |b.live.Keys| && |consoles| == |consoles.Keys|;
    }

    /** HELLO, as the book has it. */
    method Greet(k: nat, xuid: Option<int>, token: Bytes, ghost b: Book) returns (entry: Entry)
      requires Valid() && Shows(b) && k in links
      modifies `consoles, `byIp, `links, `nextNumber
      ensures Valid() && Shows(After(b, entry)) && Records(settings, b, Greeting(k, xuid, token), entry)
      ensures forall c: Console | c in consoles.Values :: c in old(consoles.Values) || fresh(c)
    {
      hide *;
      SeatsAre(b);
      GreetedIs(b, k, links[k], xuid, token);
      var console := SayHello(k, xuid, token);
      if console.Some? {
        entry := Arrival(k, console.value.number, xuid.value, token);
        RoomsSame();
        ShowsArrival(b, k, console.value);
      } else {
        entry := Nothing;
        NothingShows(b);
      }
    }

    lemma GreetedIs(b: Book, k: nat, link: Link, xuid: Option<int>, token: Bytes)
      requires k in b.seats && b.seats[k] == SeatOf(link)
      ensures Welcomes(settings, b, k, xuid) <==>
        && link.console == None && link.signed && |b.live| < settings.maxConsoles && xuid.Some?
        && exists n :: 1 <= n <= LAST_CONSOLE_NUMBER && n !in b.live.Keys
      ensures Welcomes(settings, b, k, xuid) ==> forall n | NextFree(b.next, b.live.Keys, n) ::
        Records(settings, b, Greeting(k, xuid, token), Arrival(k, n, xuid.value, token))
      ensures !Welcomes(settings, b, k, xuid) ==> Records(settings, b, Greeting(k, xuid, token), Nothing)
    {
      hide NextFree;
      assert Welcomes(settings, b, k, xuid) ==> exists n :: 1 <= n <= LAST_CONSOLE_NUMBER && n !in b.live.Keys;
      if n :| 1 <= n <= LAST_CONSOLE_NUMBER && n !in b.live.Keys {
        assert n !in b.live;
      }
    }

    /** The end of a connection, as the book has it. */
    method End(k: nat, ghost b: Book) returns (entry: Entry)
      requires Valid() && Shows(b) && k in links
      modifies this, sessions.Values
      ensures Valid() && Shows(After(b, entry)) && entry == Ending(b, k)
      ensures consoles.Values <= old(consoles.Values) && sessions.Values <= old(sessions.Values)
    {
      hide *;
      Parts();
      SeatsAre(b);
      var console := links[k].console;
      EndingIs(b, k, links[k]);
      if console.Some? {
        LiveOf(links, consoles, k);
      }
      Close(k);
      if console.Some? {
        DepartedConsoles(console.value);
      }
      forall n | n in consoles ensures unchanged(consoles[n]) {
        var c: object := consoles[n];
        assert c != this;
      }
      if console.Some? {
        entry := Departure(k, console.value.number);
        ShowsDeparture(b, k, console.value);
      } else {
        entry := Closing(k);
        NothingElse();
        RoomsSame();
        ShowsClosing(b, k);
      }
    }

    lemma EndingIs(b: Book, k: nat, link: Link)
      requires k in b.seats && b.seats[k] == SeatOf(link)
      ensures Ending(b, k) == if link.console.Some? then Departure(k, link.console.value.number) else Closing(k)
    {
    }

    twostate lemma DepartedConsoles(c: Console)
      requires Departed(c)
      ensures consoles == old(consoles) - {c.number}
    {
    }

    /** A datagram, by the tables and by the book. */
    method Hear(data: Bytes, address: Address, ghost b: Book) returns (entry: Entry)
      requires Valid() && Shows(b)
      modifies `byUdp, consoles.Values
      ensures Valid() && Shows(After(b, entry)) && Records(settings, b, Datagram(data, address), entry)
    {
      hide *;
      Parts();
      NumbersApart(consoles, byIp);
      RelaysAlike(b, data, address);
      RegistersAlike(b, data);
      CallsForIs(b, data, address);
      entry := Receive(data, address);
      RoomsSame();
      HeardShows(b, data, address, entry);
    }

    /** What a datagram calls for, by the tables. */
    ghost predicate CallsFor(b: Book, data: Bytes, address: Address)
      reads this, consoles.Values, byIp.Values
    {
      forall entry :: Records(settings, b, Datagram(data, address), entry) <==>
        entry ==
          if Registers(data) then Registration(U32(data, 1), address, |data| >= 13)
          else if Relays(data, address) then Relay(data, address, byIp[U32(data, 1)].udp.value)
          else Nothing
    }

    lemma CallsForIs(b: Book, data: Bytes, address: Address)
      requires Registers(data) <==> RegistersBy(settings, b, data)
      requires Relays(data, address) <==> RelaysBy(b, data, address)
      requires Relays(data, address) ==> b.udp[U32(data, 1) - NETWORK] == byIp[U32(data, 1)].udp.value
      ensures CallsFor(b, data, address)
    {
      hide U32;
    }

    twostate lemma HeardShows(new b: Book, new data: Bytes, new address: Address, new entry: Entry)
      requires old(Valid() && Shows(b) && CallsFor(b, data, address)) && consoles == old(consoles) && RoomsKept()
      requires links == old(links) && nextNumber == old(nextNumber)
      requires forall n | n in consoles :: consoles[n].number == n
      requires entry ==
        if old(Registers(data)) then Registration(U32(data, 1), address, |data| >= 13)
        else if old(Relays(data, address)) then Relay(data, address, old(byIp[U32(data, 1)].udp.value))
        else Nothing
      requires !entry.Registration? ==> byUdp == old(byUdp) && forall n | n in consoles :: unchanged(consoles[n])
      requires entry.Registration? ==>
        && byUdp == old(Moved(byUdp, consoles[entry.number], address))
        && forall n | n in consoles ::
          if n == entry.number
          then consoles[n].udp == Some(address) && consoles[n].tokenUsed == (old(consoles[n].tokenUsed) || entry.full)
          else unchanged(consoles[n])
      ensures Shows(After(b, entry)) && Records(settings, b, Datagram(data, address), entry)
    {
      hide Valid, Shows, After, Taken, Moved, U32, RelaysBy, RegistersBy, Records;
      if entry.Registration? {
        ShowsRegistration(b, consoles[U32(data, 1)], address, entry.full);
      } else {
        StillShows(b);
        AfterNothing(b);
      }
    }

    /** One event, and what came of it; b is the book of the log so far. */
    method Handle(e: Event, ghost b: Book) returns (entry: Entry)
      requires Valid() && Possible(e) && Shows(b)
      modifies this, consoles.Values, sessions.Values
      ensures Valid() && Shows(After(b, entry)) && Records(settings, b, e, entry)
      ensures forall c: Console | c in consoles.Values :: c in old(consoles.Values) || fresh(c)
      ensures forall session: Session | session in sessions.Values :: session in old(sessions.Values) || fresh(session)
    {
      hide *;
      CanHappen(e);
      match e {
      case Opened(k) =>
        entry := Accept(k, b);
      case Password(k, given) =>
        entry := Unlock(k, given, b);
      case Greeting(k, xuid, token) =>
        entry := Greet(k, xuid, token, b);
      case Asked(k, request) =>
        entry := Answer(k, request, b);
      case Ended(k) =>
        entry := End(k, b);
        EndedIs(b, k);
      case Datagram(data, address) =>
        entry := Hear(data, address, b);
      }
    }

    lemma EndedIs(b: Book, k: nat)
      ensures Records(settings, b, Ended(k), Ending(b, k))
    {
    }

    twostate lemma RoomsSame()
      requires sessions == old(sessions) && order == old(order) && forall id | id in sessions :: unchanged(sessions[id])
      ensures RoomsKept()
    {
    }

    twostate lemma NothingElse()
      requires consoles == old(consoles) && byUdp == old(byUdp) && nextNumber == old(nextNumber)
      requires forall n | n in consoles :: unchanged(consoles[n])
      ensures ConsolesKept()
    {
    }

    twostate lemma NothingShows(new b: Book)
      requires old(Shows(b)) && consoles == old(consoles) && byUdp == old(byUdp)
      requires links == old(links) && nextNumber == old(nextNumber)
      requires forall n | n in consoles :: unchanged(consoles[n])
      requires sessions == old(sessions) && order == old(order) && forall id | id in sessions :: unchanged(sessions[id])
      ensures Shows(b) && After(b, Nothing) == b
    {
      hide *;
      NothingElse();
      RoomsSame();
      StillShows(b);
      AfterNothing(b);
    }

    /** Whatever happens, in whatever order, every table and limit holds, and the log is the log
        of the run: each entry is what its event calls for by the book of the entries before. */
    method Serve(events: seq<Event>) returns (log: seq<Entry>)
      requires Valid() && Shows(BookOf([]))
      modifies this, consoles.Values, sessions.Values
      ensures Valid() && Shows(BookOf(log)) && Recorded(settings, events, log)
    {
      hide *;
      log := [];
      for i := 0 to |events|
        invariant Valid() && Shows(BookOf(log)) && |log| == i
        invariant forall c: Console | c in consoles.Values :: c in old(consoles.Values) || fresh(c)
        invariant forall session: Session | session in sessions.Values ::
          session in old(sessions.Values) || fresh(session)
        invariant forall j | 0 <= j < i :: Records(settings, BookOf(log[..j]), events[j], log[j])
      {
        var entry := Nothing;
        if Possible(events[i]) {
          entry := Handle(events[i], BookOf(log));
        } else {
          ImpossibleIs(events[i], BookOf(log));
          AfterNothing(BookOf(log));
        }
        BookMore(log, entry);
        log := log + [entry];
      }
      RecordedIs(settings, events, log);
    }

    lemma ImpossibleIs(e: Event, b: Book)
      requires !Possible(e) && Shows(b)
      ensures Records(settings, b, e, Nothing)
    {
      SeatsAre(b);
    }
  }

  function SeatOf(link: Link): Seat {
    Seat(if link.console.Some? then Some(link.console.value.number) else None, link.signed)
  }

  lemma NotHeard(byUdp: map<Address, Console>, c: Console)
    requires forall a | a in byUdp :: byUdp[a] != c
    ensures Unheard(byUdp, c)
  {
  }

  lemma FewerRegistered(byUdp: map<Address, Console>, less: map<Address, Console>, consoles: map<nat, Console>)
    requires Registered(byUdp, consoles)
    requires forall a | a in less :: a in byUdp && less[a] == byUdp[a]
    ensures Registered(less, consoles)
  {
  }

  predicate Unheard(byUdp: map<Address, Console>, c: Console) {
    forall a | a in byUdp :: byUdp[a] != c
  }

  lemma DropFits(links: map<nat, Link>, consoles: map<nat, Console>, byIp: map<nat, Console>,
      sessions: map<Bytes, Session>, most: nat, k: nat, c: Console)
    requires TablesFit(consoles, byIp) && HostsFit(sessions, consoles, most) && HostedBy(sessions, c) == {}
      && IsLive(consoles, c)
    ensures TablesFit(consoles - {c.number}, byIp - {IpOf(c.number)}) && HostsFit(sessions, consoles - {c.number}, most)
    ensures |consoles - {c.number}| <= |consoles| && |links - {k}| <= |links|
  {
    hide *;
    KeysLess(links, k);
    KeysLess(consoles, c.number);
    FewerHosts(sessions, consoles, byIp, most, c);
    FewerTables(consoles, byIp, c);
  }

  lemma RegisteredLess(byUdp: map<Address, Console>, consoles: map<nat, Console>, c: Console)
    requires Registered(byUdp, consoles) && IsLive(consoles, c) && Unheard(byUdp, c)
    ensures Registered(byUdp, consoles - {c.number})
  {
  }

  /** Every address is its own console's, but for the one just moved. */
  ghost predicate Others(byUdp: map<Address, Console>, consoles: map<nat, Console>, c: Console, address: Address)
    reads byUdp.Values - {c}
  {
    forall a | a in byUdp :: IsLive(consoles, byUdp[a]) && if byUdp[a] == c then a == address
      else byUdp[a].udp == Some(a)
  }

  /** A console that registers from an address is heard there afterwards exactly when the address
      was new to it or still led to it: one whose address another console has taken since stays
      unheard however often it repeats its registration. */
  lemma HeardFrom(byUdp: map<Address, Console>, c: Console, address: Address)
    ensures (address in Moved(byUdp, c, address) && Moved(byUdp, c, address)[address] == c) <==>
      c.udp != Some(address) || (address in byUdp && byUdp[address] == c)
  {
    hide Unregistered;
    assert c.udp != Some(address) ==> Moved(byUdp, c, address) == Unregistered(byUdp, c)[address := c];
  }

  lemma MovedIs(byUdp: map<Address, Console>, c: Console, address: Address)
    ensures Moved(byUdp, c, address) == if c.udp == Some(address) then byUdp else Unregistered(byUdp, c)[address := c]
  {
  }

  lemma MovedFits(byUdp: map<Address, Console>, consoles: map<nat, Console>, c: Console, address: Address)
    requires Registered(byUdp, consoles) && IsLive(consoles, c)
    ensures Others(Moved(byUdp, c, address), consoles, c, address)
  {
  }

  lemma RegisteredNow(byUdp: map<Address, Console>, consoles: map<nat, Console>, c: Console, address: Address)
    requires Others(byUdp, consoles, c, address) && c.udp == Some(address)
    ensures Registered(byUdp, consoles)
  {
  }

  lemma SenderNumber(byUdp: map<Address, Console>, consoles: map<nat, Console>, byIp: map<nat, Console>,
      address: Address)
    requires Registered(byUdp, consoles) && TablesFit(consoles, byIp) && address in byUdp
    ensures byUdp[address].number <= LAST_CONSOLE_NUMBER
  {
  }

  lemma SessionsApart(sessions: map<Bytes, Session>, consoles: map<nat, Console>, most: nat)
    requires HostsFit(sessions, consoles, most)
    ensures forall id | id in sessions :: sessions[id].id == id
  {
  }

  lemma FitsAt(sessions: map<Bytes, Session>, id: Bytes)
    requires AllFit(sessions) && id in sessions
    ensures sessions[id].Fits()
  {
  }

  lemma NumbersApart(consoles: map<nat, Console>, byIp: map<nat, Console>)
    requires TablesFit(consoles, byIp)
    ensures forall n | n in consoles :: consoles[n].number == n && IsLive(consoles, consoles[n])
  {
  }

  lemma RegisteredMore(byUdp: map<Address, Console>, consoles: map<nat, Console>, c: Console)
    requires Registered(byUdp, consoles) && c.number !in consoles
    ensures Registered(byUdp, consoles[c.number := c])
  {
  }

  lemma LiveOf(links: map<nat, Link>, consoles: map<nat, Console>, k: nat)
    requires LinksFit(links, consoles) && k in links && links[k].console.Some?
    ensures IsLive(consoles, links[k].console.value)
  {
  }

  lemma NoneHosted(sessions: map<Bytes, Session>, c: Console)
    ensures HostedBy(sessions - HostedBy(sessions, c), c) == {}
  {
  }

  // ------------------------------------------------------------ where the promises fail

  /** The registration a console sends. */
  function Registering(number: nat, token: Bytes): Bytes
    requires number <= LAST_CONSOLE_NUMBER
  {
    [0, 0, 0, number / 0x100, number % 0x100] + token
  }

  lemma RegisteringNames(number: nat, token: Bytes)
    requires number <= LAST_CONSOLE_NUMBER && |token| == 8
    ensures var data := Registering(number, token);
      |data| == 13 && data[0] == 0 && U32(data, 1) == number && data[5..13] == token
  {
  }

  lemma LiveNumber(consoles: map<nat, Console>, byIp: map<nat, Console>, c: Console)
    requires TablesFit(consoles, byIp) && IsLive(consoles, c)
    ensures c.number <= LAST_CONSOLE_NUMBER
  {
  }

  lemma RegistersOwn(service: Service, c: Console)
    requires IsLive(service.consoles, c) && c.number <= LAST_CONSOLE_NUMBER && |c.token| == 8
    ensures var data := Registering(c.number, c.token);
      && |data| == 13 && data[0] == 0 && U32(data, 1) == c.number && service.Registers(data)
      && c.number in service.consoles && service.consoles[c.number] == c
  {
    hide U32, Registering;
    RegisteringNames(c.number, c.token);
  }

  /** A console registers with its token. */
  method RegisterFrom(service: Service, c: Console, address: Address)
    requires service.Valid() && IsLive(service.consoles, c) && |c.token| == 8
    modifies service`byUdp, service.consoles.Values
    ensures service.Valid() && c.udp == Some(address)
    ensures service.byUdp == old(Moved(service.byUdp, c, address))
    ensures forall n | n in service.consoles && n != c.number :: unchanged(service.consoles[n])
    ensures c.number <= LAST_CONSOLE_NUMBER && service.Registers(Registering(c.number, c.token))
  {
    hide *;
    service.Parts();
    LiveNumber(service.consoles, service.byIp, c);
    RegistersOwn(service, c);
    var taken := service.Register(Registering(c.number, c.token), address);
    RegistersOwn(service, c);
  }

  /** Two consoles arrive and register from one address, and the first repeats its registration:
      it counts, and the address still leads to the second. */
  method TakenOver(address: Address, one: Bytes, two: Bytes)
      returns (service: Service, first: Console, second: Console)
    requires |one| == |two| == 8
    ensures service.Valid() && first != second && IsLive(service.consoles, first) && IsLive(service.consoles, second)
    ensures first.udp == Some(address) && address in service.byUdp && service.byUdp[address] == second
    ensures first.number <= LAST_CONSOLE_NUMBER && service.Registers(Registering(first.number, first.token))
  {
    hide Service.Valid, Service.Shows, Service.Registers, U32, Registering;
    service := new Service(Settings([], 2, 0, 0));
    var accepted := service.Open(1);
    accepted := service.Open(2);
    assert 1 !in service.consoles;
    var console := service.SayHello(1, Some(1), one);
    first := console.value;
    assert exists n :: 1 <= n <= LAST_CONSOLE_NUMBER && n !in service.consoles by {
      assert 1 !in service.consoles || 2 !in service.consoles;
    }
    console := service.SayHello(2, Some(2), two);
    second := console.value;
    RegisterFrom(service, first, address);
    RegisterFrom(service, second, address);
    RegisterFrom(service, first, address);
  }
}
