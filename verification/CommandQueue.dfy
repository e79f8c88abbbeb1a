/** The asynchronous client's list of commands, shared by all clients and served as one queue each. */
module CommandQueue {
  import opened Bytes

  datatype Kind = CONNECT | SUBSCRIBE | UNSUBSCRIBE | PUBLISH | DISCONNECT(internal: bool)

  /** A queued command; `call` numbers the API calls and is looked at by no one. */
  datatype Command = Command(client: nat, kind: Kind, call: nat)

  /** What the scheduler looks at in a client. */
  datatype Status = Status(connected: bool, connectState: int, noPendingWrites: bool, inFlight: nat)

  const MAX_IN_FLIGHT := 65535 - 1

  predicate IsRequest(c: Command) {
    c.kind.PUBLISH? || c.kind.SUBSCRIBE? || c.kind.UNSUBSCRIBE?
  }

  predicate Ready(c: Command, status: nat -> Status) {
    var st := status(c.client);
    && (c.kind.CONNECT? || c.kind.DISCONNECT? || (st.connected && st.connectState == 0 && st.noPendingWrites))
    && !(IsRequest(c) && st.inFlight >= MAX_IN_FLIGHT)
  }

  /** The first command of its client. */
  predicate IsHead(cs: seq<Command>, k: nat)
    requires k < |cs|
  {
    forall i :: 0 <= i < k ==> cs[i].client != cs[k].client
  }

  // The scheduler

  /** Scans from position i, passing over clients whose head was not ready. */
  function SelectFrom(cs: seq<Command>, i: nat, ignored: set<nat>, status: nat -> Status): nat
    requires i <= |cs|
    decreases |cs| - i
  {
    if i == |cs| then i
    else if cs[i].client in ignored then SelectFrom(cs, i + 1, ignored, status)
    else if Ready(cs[i], status) then i
    else SelectFrom(cs, i + 1, ignored + {cs[i].client}, status)
  }

  function Select(cs: seq<Command>, status: nat -> Status): nat {
    SelectFrom(cs, 0, {}, status)
  }

  function ClientsOf(cs: seq<Command>): set<nat> {
    set c | c in cs :: c.client
  }

  lemma ClientsOfSnoc(cs: seq<Command>, i: nat)
    requires i < |cs|
    ensures ClientsOf(cs[..i + 1]) == ClientsOf(cs[..i]) + {cs[i].client}
    ensures cs[i].client in ClientsOf(cs[..i]) <==> !IsHead(cs, i)
  {
    assert cs[..i + 1] == cs[..i] + [cs[i]];
    if !IsHead(cs, i) {
      var j :| 0 <= j < i && cs[j].client == cs[i].client;
      assert cs[j] in cs[..i];
    }
  }

  lemma {:induction false} SelectFromIsHead(cs: seq<Command>, i: nat, status: nat -> Status)
    requires i <= |cs|
    requires forall j :: 0 <= j < i && IsHead(cs, j) ==> !Ready(cs[j], status)
    ensures var k := SelectFrom(cs, i, ClientsOf(cs[..i]), status);
            && k <= |cs|
            && (k < |cs| ==> IsHead(cs, k) && Ready(cs[k], status))
            && forall j :: 0 <= j < k && IsHead(cs, j) ==> !Ready(cs[j], status)
    decreases |cs| - i
  {
    hide Ready, IsHead, ClientsOf;
    if i < |cs| {
      ClientsOfSnoc(cs, i);
      if !IsHead(cs, i) || !Ready(cs[i], status) {
        SelectFromIsHead(cs, i + 1, status);
      }
      if cs[i].client in ClientsOf(cs[..i]) {
        assert ClientsOf(cs[..i]) + {cs[i].client} == ClientsOf(cs[..i]);
      }
    }
  }

  /** The command chosen is the first one that is the head of its client and ready; nothing is
      chosen exactly when no client's head is ready. */
  lemma SelectIsFirstReadyHead(cs: seq<Command>, status: nat -> Status)
    ensures var k := Select(cs, status);
            && k <= |cs|
            && (k < |cs| ==> IsHead(cs, k) && Ready(cs[k], status))
            && (forall j :: 0 <= j < k && IsHead(cs, j) ==> !Ready(cs[j], status))
            && (k == |cs| <==> forall j :: 0 <= j < |cs| && IsHead(cs, j) ==> !Ready(cs[j], status))
  {
    assert ClientsOf(cs[..0]) == {};
    SelectFromIsHead(cs, 0, status);
  }

  /** What is taken is a CONNECT or DISCONNECT, or a request of a client that is connected, idle, has
      nothing left to write and fewer than 65534 messages in flight. */
  lemma TakenMayGo(cs: seq<Command>, status: nat -> Status)
    ensures var k := Select(cs, status);
            k < |cs| && !cs[k].kind.CONNECT? && !cs[k].kind.DISCONNECT? ==>
              var st := status(cs[k].client);
              st.connected && st.connectState == 0 && st.noPendingWrites && st.inFlight < 65534
  {
    SelectIsFirstReadyHead(cs, status);
  }

  /** Nothing is taken exactly when the first command of each client is a request and the client is not
      connected, busy connecting, still writing or has 65534 messages in flight. */
  lemma NothingToDoIff(cs: seq<Command>, status: nat -> Status)
    ensures Select(cs, status) == |cs| <==>
            forall j :: 0 <= j < |cs| && (forall i :: 0 <= i < j ==> cs[i].client != cs[j].client) ==>
              var st := status(cs[j].client);
              && (cs[j].kind.PUBLISH? || cs[j].kind.SUBSCRIBE? || cs[j].kind.UNSUBSCRIBE?)
              && (!st.connected || st.connectState != 0 || !st.noPendingWrites || st.inFlight >= 65534)
  {
    SelectIsFirstReadyHead(cs, status);
    assert forall j :: 0 <= j < |cs| ==> (IsHead(cs, j) <==> forall i :: 0 <= i < j ==> cs[i].client != cs[j].client);
  }

  // Adding and removing

  /** CONNECT and internal DISCONNECT go to the front, unless the front is already the same. */
  function Added(cs: seq<Command>, c: Command): seq<Command> {
    if c.kind.CONNECT? || c.kind == DISCONNECT(true) then
      if cs != [] && cs[0].client == c.client && (cs[0].kind.CONNECT? <==> c.kind.CONNECT?) &&
         (cs[0].kind.DISCONNECT? <==> c.kind.DISCONNECT?) then cs
      else [c] + cs
    else cs + [c]
  }

  function Without(cs: seq<Command>, k: nat): seq<Command>
    requires k < |cs|
  {
    cs[..k] + cs[k + 1..]
  }

  /** The list without the commands of one client. */
  function Cleaned(cs: seq<Command>, client: nat): seq<Command> {
    if cs == [] then []
    else (if cs[0].client == client then [] else [cs[0]]) + Cleaned(cs[1..], client)
  }

  /** A CONNECT or internal DISCONNECT is served next, before anything else that waits, whatever the
      state of its client, and it is not queued twice in a row. */
  lemma UrgentGoesFirst(cs: seq<Command>, c: Command, status: nat -> Status)
    requires c.kind == CONNECT || c.kind == DISCONNECT(true)
    ensures var now := Added(cs, c);
            && (now == [c] + cs || now == cs)
            && now != [] && now[0].client == c.client && (now[0].kind.CONNECT? <==> c.kind.CONNECT?) && (now[0].kind.DISCONNECT? <==> c.kind.DISCONNECT?)
            && Select(now, status) == 0
            && (now == cs <==> cs != [] && cs[0].client == c.client && (if c.kind.CONNECT? then cs[0].kind.CONNECT? else cs[0].kind.DISCONNECT?))
  {
    if Added(cs, c) == cs {
      assert |[c] + cs| != |cs|;
    }
  }

  /** Every other command waits behind all that were there. */
  lemma OthersGoLast(cs: seq<Command>, c: Command)
    requires c.kind != CONNECT && c.kind != DISCONNECT(true)
    ensures Added(cs, c) == cs + [c]
  {
  }

  /** Cleaning passes over the commands one by one: those of the client go, the others stay in place. */
  lemma {:induction false} CleanedParts(a: seq<Command>, c: Command, b: seq<Command>, client: nat)
    ensures Cleaned(a + [c] + b, client) == Cleaned(a, client) + (if c.client == client then [] else [c]) + Cleaned(b, client)
    ensures Cleaned([], client) == []
  {
    if a == [] {
      assert a + [c] + b == [c] + b;
      assert ([c] + b)[1..] == b;
    } else {
      assert (a + [c] + b)[1..] == a[1..] + [c] + b;
      assert (a + [c] + b)[0] == a[0];
      CleanedParts(a[1..], c, b, client);
    }
  }

  class Scheduler {
    var commands: seq<Command>

    constructor ()
      ensures commands == []
    {
      commands := [];
    }

    method AddCommand(c: Command)
      modifies this
      ensures commands == Added(old(commands), c)
    {
      if c.kind.CONNECT? || c.kind == DISCONNECT(true) {
        var same := |commands| > 0 && commands[0].client == c.client &&
        ((commands[0].kind.CONNECT? && c.kind.CONNECT?) || (commands[0].kind.DISCONNECT? && c.kind.DISCONNECT?));
        if !same {
          commands := [c] + commands;
        }
      } else {
        commands := commands + [c];
      }
    }

    /** Takes the next command to process off the list, if there is one. */
    method TakeCommand(status: nat -> Status) returns (command: Option<Command>)
      modifies this
      ensures var k := Select(old(commands), status);
              if k < |old(commands)| then command == Some(old(commands)[k]) && commands == Without(old(commands), k)
              else command == None && commands == old(commands)
      ensures command.Some? && !command.value.kind.CONNECT? && !command.value.kind.DISCONNECT? ==>
                var st := status(command.value.client);
                st.connected && st.connectState == 0 && st.noPendingWrites && st.inFlight < 65534
    {
      SelectIsFirstReadyHead(commands, status);
      TakenMayGo(commands, status);
      var ignored: set<nat> := {};
      var k := 0;
      while k < |commands|
        invariant 0 <= k <= |commands| && commands == old(commands)
        invariant Select(commands, status) == SelectFrom(commands, k, ignored, status)
      {
        var cmd := commands[k];
        if cmd.client !in ignored {
          if Ready(cmd, status) {
            break;
          }
          ignored := ignored + {cmd.client};
        }
        k := k + 1;
      }
      if k < |commands| {
        command := Some(commands[k]);
        commands := commands[..k] + commands[k + 1..];
      } else {
        command := None;
      }
    }

    /** Drops every command of a client whose session is cleaned; the others keep their order. */
    method RemoveCommands(client: nat)
      modifies this
      ensures commands == Cleaned(old(commands), client)
    {
      var i := 0;
      assert commands[..0] + Cleaned(commands[0..], client) == Cleaned(commands, client);
      while i < |commands|
        invariant 0 <= i <= |commands|
        invariant commands[..i] + Cleaned(commands[i..], client) == Cleaned(old(commands), client)
        decreases |commands| - i
      {
        assert commands[i..][1..] == commands[i + 1..];
        if commands[i].client == client {
          ghost var before := commands;
          commands := commands[..i] + commands[i + 1..];
          assert commands[..i] == before[..i] && commands[i..] == before[i + 1..];
        } else {
          assert commands[..i + 1] == commands[..i] + [commands[i]];
          i := i + 1;
        }
      }
      assert commands[..i] + Cleaned(commands[i..], client) == commands;
    }
  }

  // Runs

  /** The publish, subscribe and unsubscribe requests of one client, in list order. */
  function RequestsOf(cs: seq<Command>, client: nat): seq<Command> {
    if cs == [] then []
    else (if cs[0].client == client && IsRequest(cs[0]) then [cs[0]] else []) + RequestsOf(cs[1..], client)
  }

  datatype Event =
    | Api(c: Command)                   // any API call or internal command
    | Take(status: nat -> Status)       // the send thread looks for a command
    | Clean(client: nat)

  /** The list, what has been taken from it and in which state of its client, and for each client the
      requests made and not dropped. */
  datatype State = State(commands: seq<Command>, taken: seq<Command>, when: seq<Status>, asked: map<nat, seq<Command>>)

  const INIT := State([], [], [], map[])

  function AskedBy(s: State, client: nat): seq<Command> {
    if client in s.asked then s.asked[client] else []
  }

  function Next(s: State, e: Event): State {
    match e
    case Api(c) =>
      s.(commands := Added(s.commands, c),
         asked := if IsRequest(c) then s.asked[c.client := AskedBy(s, c.client) + [c]] else s.asked)
    case Take(status) =>
      SelectIsFirstReadyHead(s.commands, status);
      var k := Select(s.commands, status);
      if k == |s.commands| then s
      else s.(commands := Without(s.commands, k), taken := s.taken + [s.commands[k]], when := s.when + [status(s.commands[k].client)])
    case Clean(client) =>
      s.(commands := Cleaned(s.commands, client), asked := s.asked[client := RequestsOf(s.taken, client)])
  }

  function Run(s: State, events: seq<Event>): State
    decreases |events|
  {
    if events == [] then s else Run(Next(s, events[0]), events[1..])
  }

  lemma {:induction false} RequestsOfConcat(a: seq<Command>, b: seq<Command>, client: nat)
    ensures RequestsOf(a + b, client) == RequestsOf(a, client) + RequestsOf(b, client)
  {
    if a == [] {
      assert a + b == b;
    } else {
      assert (a + b)[1..] == a[1..] + b;
      RequestsOfConcat(a[1..], b, client);
    }
  }

  lemma RequestsOfOne(c: Command, client: nat)
    ensures RequestsOf([c], client) == if c.client == client && IsRequest(c) then [c] else []
  {
    assert [c][1..] == [];
  }

  lemma {:induction false} RequestsOfCleaned(cs: seq<Command>, cleaned: nat, client: nat)
    ensures RequestsOf(Cleaned(cs, cleaned), client) == if client == cleaned then [] else RequestsOf(cs, client)
  {
    if cs != [] {
      RequestsOfCleaned(cs[1..], cleaned, client);
      var front := if cs[0].client == cleaned then [] else [cs[0]];
      RequestsOfConcat(front, Cleaned(cs[1..], cleaned), client);
      RequestsOfOne(cs[0], client);
    }
  }

  lemma {:induction false} NoRequestsBefore(cs: seq<Command>, client: nat)
    requires forall i :: 0 <= i < |cs| ==> cs[i].client != client
    ensures RequestsOf(cs, client) == []
  {
    if cs != [] {
      NoRequestsBefore(cs[1..], client);
    }
  }

  /** Taking the head of a client takes the first of its requests and leaves the others alone. */
  lemma TakenIsFirst(cs: seq<Command>, k: nat, client: nat)
    requires k < |cs| && IsHead(cs, k)
    ensures RequestsOf(cs, client) == RequestsOf([cs[k]], client) + RequestsOf(Without(cs, k), client)
  {
    assert cs == cs[..k] + ([cs[k]] + cs[k + 1..]);
    RequestsOfConcat(cs[..k], [cs[k]] + cs[k + 1..], client);
    RequestsOfConcat([cs[k]], cs[k + 1..], client);
    RequestsOfConcat(cs[..k], cs[k + 1..], client);
    RequestsOfOne(cs[k], client);
    if cs[k].client == client {
      NoRequestsBefore(cs[..k], client);
    }
  }

  /** For each client, what was taken and what still waits are together what was asked, in order. */
  ghost predicate Fifo(s: State) {
    forall client: nat :: RequestsOf(s.taken, client) + RequestsOf(s.commands, client) == AskedBy(s, client)
  }

  lemma AddedRequests(cs: seq<Command>, c: Command, client: nat)
    ensures RequestsOf(Added(cs, c), client) == RequestsOf(cs, client) + if c.client == client && IsRequest(c) then [c] else []
  {
    RequestsOfOne(c, client);
    RequestsOfConcat([c], cs, client);
    RequestsOfConcat(cs, [c], client);
  }

  lemma TakeKeepsFifo(s: State, status: nat -> Status, client: nat)
    ensures var s' := Next(s, Take(status));
            RequestsOf(s'.taken, client) + RequestsOf(s'.commands, client) == RequestsOf(s.taken, client) + RequestsOf(s.commands, client)
  {
    hide Select, Ready, IsHead, RequestsOf;
    SelectIsFirstReadyHead(s.commands, status);
    var k := Select(s.commands, status);
    if k < |s.commands| {
      TakenIsFirst(s.commands, k, client);
      RequestsOfConcat(s.taken, [s.commands[k]], client);
    }
  }

  lemma NextKeepsFifo(s: State, e: Event)
    requires Fifo(s)
    ensures Fifo(Next(s, e))
  {
    hide Select, Ready, IsHead, RequestsOf, Added, Cleaned;
    var s' := Next(s, e);
    forall client: nat ensures RequestsOf(s'.taken, client) + RequestsOf(s'.commands, client) == AskedBy(s', client) {
      assert RequestsOf(s.taken, client) + RequestsOf(s.commands, client) == AskedBy(s, client);
      match e
      case Api(c) =>
        AddedRequests(s.commands, c, client);
      case Take(status) =>
        TakeKeepsFifo(s, status, client);
      case Clean(cleaned) =>
        RequestsOfCleaned(s.commands, cleaned, client);
    }
  }

  lemma {:induction false} RunKeepsFifo(s: State, events: seq<Event>)
    requires Fifo(s)
    ensures Fifo(Run(s, events))
    decreases |events|
  {
    if events != [] {
      NextKeepsFifo(s, events[0]);
      RunKeepsFifo(Next(s, events[0]), events[1..]);
    }
  }

  /** The requests a client makes in a run, in API order. */
  function MadeBy(events: seq<Event>, client: nat): seq<Command> {
    if events == [] then []
    else MadeNow(events[0], client) + MadeBy(events[1..], client)
  }

  predicate NeverCleaned(events: seq<Event>, client: nat) {
    forall i :: 0 <= i < |events| ==> events[i] != Clean(client)
  }

  lemma {:induction false} AskedIsMade(s: State, events: seq<Event>, client: nat)
    requires NeverCleaned(events, client)
    ensures AskedBy(Run(s, events), client) == AskedBy(s, client) + MadeBy(events, client)
    decreases |events|
  {
    if events == [] {
      assert AskedBy(s, client) + [] == AskedBy(s, client);
    } else {
      hide Next, AskedBy;
      var s1 := Next(s, events[0]);
      AskedStep(s, events[0], client);
      assert events[0] != Clean(client);
      AskedIsMade(s1, events[1..], client);
      Regroup(AskedBy(s, client), MadeNow(events[0], client), MadeBy(events[1..], client));
    }
  }

  function MadeNow(e: Event, client: nat): seq<Command> {
    if e.Api? && e.c.client == client && IsRequest(e.c) then [e.c] else []
  }

  lemma AskedStep(s: State, e: Event, client: nat)
    requires e != Clean(client)
    ensures AskedBy(Next(s, e), client) == AskedBy(s, client) + MadeNow(e, client)
  {
    hide Select, Ready, IsHead, RequestsOf, Added, Cleaned;
  }

  lemma NoneAsked(client: nat)
    ensures Fifo(INIT) && AskedBy(INIT, client) == []
  {
  }

  /** Whatever the other clients do, a client's requests are taken in the order in which it made
      them, none lost and none repeated, as long as its session is not cleaned. */
  lemma RequestsTakenInApiOrder(events: seq<Event>, client: nat)
    requires NeverCleaned(events, client)
    ensures var s := Run(INIT, events);
            RequestsOf(s.taken, client) + RequestsOf(s.commands, client) == MadeBy(events, client)
  {
    hide Run, RequestsOf, MadeBy;
    NoneAsked(client);
    RunKeepsFifo(INIT, events);
    AskedIsMade(INIT, events, client);
    assert [] + MadeBy(events, client) == MadeBy(events, client);
  }

  /** A session clean drops exactly the client's waiting requests; later ones are again taken in order. */
  lemma CleanDropsTheRest(before: seq<Event>, after: seq<Event>, client: nat)
    requires NeverCleaned(after, client)
    ensures var s0 := Run(INIT, before);
            var s := Run(Next(s0, Clean(client)), after);
            RequestsOf(s.taken, client) + RequestsOf(s.commands, client) ==
            RequestsOf(s0.taken, client) + MadeBy(after, client)
  {
    var s0 := Run(INIT, before);
    RunKeepsFifo(INIT, before);
    NextKeepsFifo(s0, Clean(client));
    RunKeepsFifo(Next(s0, Clean(client)), after);
    AskedIsMade(Next(s0, Clean(client)), after, client);
  }

  /** Whatever was taken other than a CONNECT or DISCONNECT was taken while its client could serve it. */
  ghost predicate TakenInTime(s: State) {
    |s.when| == |s.taken| &&
    forall i :: 0 <= i < |s.taken| && !s.taken[i].kind.CONNECT? && !s.taken[i].kind.DISCONNECT? ==>
      s.when[i].connected && s.when[i].connectState == 0 && s.when[i].noPendingWrites && s.when[i].inFlight < 65534
  }

  lemma NextTakesInTime(s: State, e: Event)
    requires TakenInTime(s)
    ensures TakenInTime(Next(s, e))
  {
    hide Select, Ready;
    if e.Take? {
      SelectIsFirstReadyHead(s.commands, e.status);
      TakenMayGo(s.commands, e.status);
    }
  }

  lemma {:induction false} RunTakesInTime(s: State, events: seq<Event>)
    requires TakenInTime(s)
    ensures TakenInTime(Run(s, events))
    decreases |events|
  {
    hide TakenInTime, Next;
    if events != [] {
      NextTakesInTime(s, events[0]);
      RunTakesInTime(Next(s, events[0]), events[1..]);
    }
  }

  /** Over every run: nothing is taken that its client cannot serve, and something is taken whenever the
      first command of some client can be served. */
  lemma ServedWhenPossible(events: seq<Event>, status: nat -> Status, j: nat)
    ensures TakenInTime(Run(INIT, events))
    ensures var s := Run(INIT, events);
            j < |s.commands| && (forall i :: 0 <= i < j ==> s.commands[i].client != s.commands[j].client) &&
            (var st := status(s.commands[j].client);
             || s.commands[j].kind.CONNECT? || s.commands[j].kind.DISCONNECT?
             || (st.connected && st.connectState == 0 && st.noPendingWrites && st.inFlight < 65534)) ==>
              |Next(s, Take(status)).taken| == |s.taken| + 1
  {
    hide Run, Select, TakenInTime;
    NothingTakenYet();
    RunTakesInTime(INIT, events);
    SelectIsFirstReadyHead(Run(INIT, events).commands, status);
    NothingToDoIff(Run(INIT, events).commands, status);
  }

  lemma NothingTakenYet()
    ensures TakenInTime(INIT)
  {
  }
}
