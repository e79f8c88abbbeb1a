/** Connection attempts: the requeued CONNECT command of the asynchronous client against the nested
    loops of the synchronous one. */
module ConnectAttempts {
  import opened Bytes

  const VERSION_DEFAULT: int := 0
  const VERSION_3_1: int := 3
  const VERSION_3_1_1: int := 4

  datatype Attempt = Attempt(uri: nat, version: int)

  /** The part of the CONNECT command that attempts are counted with. */
  datatype Connect = Connect(currentURI: nat, version: int)

  /** How many addresses there are to try: with no list there is the one given at creation. */
  function Addresses(serverURIcount: nat): (n: nat)
    ensures n >= 1
  {
    if serverURIcount == 0 then 1 else serverURIcount
  }

  // The requeued command; `wanted` is the version asked for in the options

  function VersionToTry(c: Connect, wanted: int): int {
    if wanted != VERSION_DEFAULT then wanted
    else if c.version == VERSION_DEFAULT then VERSION_3_1_1
    else if c.version == VERSION_3_1_1 then VERSION_3_1
    else c.version
  }

  predicate CheckConn(c: Connect, serverURIcount: nat, wanted: int) {
    c.currentURI + 1 < serverURIcount || (c.version == VERSION_3_1_1 && wanted == VERSION_DEFAULT)
  }

  function Requeued(c: Connect, wanted: int): Connect {
    if wanted != VERSION_DEFAULT then c.(currentURI := c.currentURI + 1)
    else if c.version == VERSION_3_1 then Connect(c.currentURI + 1, VERSION_DEFAULT)
    else c
  }

  /** A command as it stands in the queue: not yet tried at this address, or tried at 3.1.1. */
  predicate Queued(c: Connect, serverURIcount: nat, wanted: int) {
    c.currentURI < Addresses(serverURIcount) &&
    (wanted == VERSION_DEFAULT ==> c.version == VERSION_DEFAULT || c.version == VERSION_3_1_1)
  }

  function AttemptsLeft(c: Connect, serverURIcount: nat, wanted: int): nat
    requires Queued(c, serverURIcount, wanted)
  {
    var left := Addresses(serverURIcount) - c.currentURI;
    if wanted != VERSION_DEFAULT then left else 2 * left - if c.version == VERSION_3_1_1 then 1 else 0
  }

  /** Attempts made from attempt number k on, when the k-th attempt succeeds iff ok(k). */
  function AsyncAttempts(c: Connect, serverURIcount: nat, wanted: int, ok: nat -> bool, k: nat): seq<Attempt>
    requires Queued(c, serverURIcount, wanted)
    decreases AttemptsLeft(c, serverURIcount, wanted)
  {
    var tried := c.(version := VersionToTry(c, wanted));
    [Attempt(tried.currentURI, tried.version)] +
    if !ok(k) && CheckConn(tried, serverURIcount, wanted)
    then AsyncAttempts(Requeued(tried, wanted), serverURIcount, wanted, ok, k + 1)
    else []
  }

  // The nested loops

  function VersionsAt(uri: nat, wanted: int): seq<Attempt> {
    if wanted == VERSION_DEFAULT then [Attempt(uri, VERSION_3_1_1), Attempt(uri, VERSION_3_1)] else [Attempt(uri, wanted)]
  }

  /** Every address from uri on, with every version, in order. */
  function AllFrom(uri: nat, serverURIcount: nat, wanted: int): seq<Attempt>
    decreases Addresses(serverURIcount) - uri
  {
    if uri >= Addresses(serverURIcount) then [] else VersionsAt(uri, wanted) + AllFrom(uri + 1, serverURIcount, wanted)
  }

  /** The beginning of a list of attempts up to and including the first success. */
  function UntilSuccess(all: seq<Attempt>, ok: nat -> bool, k: nat): seq<Attempt> {
    if all == [] then []
    else if ok(k) then [all[0]]
    else [all[0]] + UntilSuccess(all[1..], ok, k + 1)
  }

  /** What is left to try for a command in the queue. */
  function Plan(c: Connect, serverURIcount: nat, wanted: int): seq<Attempt>
    requires Queued(c, serverURIcount, wanted)
  {
    if wanted == VERSION_DEFAULT && c.version == VERSION_3_1_1
    then [Attempt(c.currentURI, VERSION_3_1)] + AllFrom(c.currentURI + 1, serverURIcount, wanted)
    else AllFrom(c.currentURI, serverURIcount, wanted)
  }

  /** The requeued command makes the attempts that the nested loops would make, in the same order,
      up to the first success. */
  lemma {:induction false} AsyncFollowsPlan(c: Connect, serverURIcount: nat, wanted: int, ok: nat -> bool, k: nat)
    requires Queued(c, serverURIcount, wanted)
    ensures AsyncAttempts(c, serverURIcount, wanted, ok, k) == UntilSuccess(Plan(c, serverURIcount, wanted), ok, k)
    decreases AttemptsLeft(c, serverURIcount, wanted)
  {
    var plan := Plan(c, serverURIcount, wanted);
    var tried := c.(version := VersionToTry(c, wanted));
    assert plan[0] == Attempt(tried.currentURI, tried.version);
    if !ok(k) {
      if CheckConn(tried, serverURIcount, wanted) {
        var again := Requeued(tried, wanted);
        AsyncFollowsPlan(again, serverURIcount, wanted, ok, k + 1);
        assert plan[1..] == Plan(again, serverURIcount, wanted);
      } else {
        assert AllFrom(c.currentURI + 1, serverURIcount, wanted) == [];
        assert plan[1..] == [];
      }
    }
  }

  lemma {:induction false} AllFromSize(uri: nat, serverURIcount: nat, wanted: int)
    requires uri <= Addresses(serverURIcount)
    ensures |AllFrom(uri, serverURIcount, wanted)| == (Addresses(serverURIcount) - uri) * (if wanted == VERSION_DEFAULT then 2 else 1)
    decreases Addresses(serverURIcount) - uri
  {
    if uri < Addresses(serverURIcount) {
      AllFromSize(uri + 1, serverURIcount, wanted);
    }
  }

  lemma {:induction false} UntilSuccessStops(all: seq<Attempt>, ok: nat -> bool, k: nat)
    ensures var done := UntilSuccess(all, ok, k);
            && done <= all
            && (forall j: nat :: k <= j < k + |done| - 1 ==> !ok(j))
            && (|done| < |all| ==> done != [] && ok(k + |done| - 1))
  {
    if all != [] && !ok(k) {
      UntilSuccessStops(all[1..], ok, k + 1);
    }
  }

  /** A fresh connect of the asynchronous client tries the same addresses and versions in the same
      order as the synchronous one, stops at the first success and gives up only when it has tried
      everything, after at most two attempts for each address. */
  lemma AsyncRefinesNestedLoops(serverURIcount: nat, wanted: int, ok: nat -> bool)
    ensures var c := Connect(0, VERSION_DEFAULT);
            var made := AsyncAttempts(c, serverURIcount, wanted, ok, 0);
            && made == UntilSuccess(AllFrom(0, serverURIcount, wanted), ok, 0)
            && |made| <= 2 * Addresses(serverURIcount)
            && (forall j: nat :: 0 <= j < |made| - 1 ==> !ok(j))
            && (ok(|made| - 1) || made == AllFrom(0, serverURIcount, wanted))
  {
    AsyncFollowsPlan(Connect(0, VERSION_DEFAULT), serverURIcount, wanted, ok, 0);
    AllFromSize(0, serverURIcount, wanted);
    UntilSuccessStops(AllFrom(0, serverURIcount, wanted), ok, 0);
  }

  // Reconnecting

  /** The command the client keeps when its attempts end: the one tried last. */
  function Kept(c: Connect, serverURIcount: nat, wanted: int, ok: nat -> bool, k: nat): Connect
    requires Queued(c, serverURIcount, wanted)
    decreases AttemptsLeft(c, serverURIcount, wanted)
  {
    var tried := c.(version := VersionToTry(c, wanted));
    if !ok(k) && CheckConn(tried, serverURIcount, wanted)
    then Kept(Requeued(tried, wanted), serverURIcount, wanted, ok, k + 1)
    else tried
  }

  /** A reconnect starts from the command kept, with the version attempts restarted. */
  function Again(kept: Connect, wanted: int): Connect {
    if wanted == VERSION_DEFAULT then kept.(version := VERSION_DEFAULT) else kept
  }

  lemma {:induction false} KeptIsLastAttempt(c: Connect, serverURIcount: nat, wanted: int, ok: nat -> bool, k: nat)
    requires Queued(c, serverURIcount, wanted)
    ensures var made, kept := AsyncAttempts(c, serverURIcount, wanted, ok, k), Kept(c, serverURIcount, wanted, ok, k);
            && made != [] && made[|made| - 1] == Attempt(kept.currentURI, kept.version)
            && Queued(Again(kept, wanted), serverURIcount, wanted)
    decreases AttemptsLeft(c, serverURIcount, wanted)
  {
    var tried := c.(version := VersionToTry(c, wanted));
    if !ok(k) && CheckConn(tried, serverURIcount, wanted) {
      KeptIsLastAttempt(Requeued(tried, wanted), serverURIcount, wanted, ok, k + 1);
    }
  }

  /** The command kept after a fresh connect whose k-th attempt succeeded iff first(k). */
  function FirstKept(serverURIcount: nat, wanted: int, first: nat -> bool): (kept: Connect)
    ensures Queued(Again(kept, wanted), serverURIcount, wanted)
  {
    KeptIsLastAttempt(Connect(0, VERSION_DEFAULT), serverURIcount, wanted, first, 0);
    Kept(Connect(0, VERSION_DEFAULT), serverURIcount, wanted, first, 0)
  }

  /** What the first reconnect tries. */
  function ReconnectAttempts(serverURIcount: nat, wanted: int, first: nat -> bool, ok: nat -> bool): seq<Attempt> {
    AsyncAttempts(Again(FirstKept(serverURIcount, wanted, first), wanted), serverURIcount, wanted, ok, 0)
  }

  lemma {:induction false} AllFromAddresses(uri: nat, serverURIcount: nat, wanted: int)
    ensures forall i :: 0 <= i < |AllFrom(uri, serverURIcount, wanted)| ==>
              uri <= AllFrom(uri, serverURIcount, wanted)[i].uri < Addresses(serverURIcount)
    ensures uri < Addresses(serverURIcount) ==>
              AllFrom(uri, serverURIcount, wanted) != [] && AllFrom(uri, serverURIcount, wanted)[0].uri == uri
    decreases Addresses(serverURIcount) - uri
  {
    if uri < Addresses(serverURIcount) {
      AllFromAddresses(uri + 1, serverURIcount, wanted);
    }
  }

  /** A reconnect makes the attempts of the nested loops, but only from the address that the first
      connect tried last: the addresses before it are not tried. */
  lemma ReconnectGoesOnFromLastAddress(serverURIcount: nat, wanted: int, first: nat -> bool, ok: nat -> bool)
    ensures var made := AsyncAttempts(Connect(0, VERSION_DEFAULT), serverURIcount, wanted, first, 0);
            var again := ReconnectAttempts(serverURIcount, wanted, first, ok);
            && made != []
            && again == UntilSuccess(AllFrom(made[|made| - 1].uri, serverURIcount, wanted), ok, 0)
            && forall i :: 0 <= i < |again| ==> again[i].uri >= made[|made| - 1].uri
  {
    var kept := Kept(Connect(0, VERSION_DEFAULT), serverURIcount, wanted, first, 0);
    KeptIsLastAttempt(Connect(0, VERSION_DEFAULT), serverURIcount, wanted, first, 0);
    AsyncFollowsPlan(Again(kept, wanted), serverURIcount, wanted, ok, 0);
    AllFromAddresses(kept.currentURI, serverURIcount, wanted);
    UntilSuccessStops(AllFrom(kept.currentURI, serverURIcount, wanted), ok, 0);
  }

  /** Where the first connect ends: at the first address only if it is the only one or an attempt at
      it succeeded. */
  lemma EndsAtFirstAddress(serverURIcount: nat, wanted: int, first: nat -> bool)
    ensures Kept(Connect(0, VERSION_DEFAULT), serverURIcount, wanted, first, 0).currentURI == 0 <==>
            Addresses(serverURIcount) == 1 || first(0) || (wanted == VERSION_DEFAULT && first(1))
  {
    var c := Connect(0, VERSION_DEFAULT);
    var tried := c.(version := VersionToTry(c, wanted));
    if !first(0) && CheckConn(tried, serverURIcount, wanted) {
      var c1 := Requeued(tried, wanted);
      var tried1 := c1.(version := VersionToTry(c1, wanted));
      KeptGrows(c1, serverURIcount, wanted, first, 1);
      if wanted == VERSION_DEFAULT && !first(1) && CheckConn(tried1, serverURIcount, wanted) {
        KeptGrows(Requeued(tried1, wanted), serverURIcount, wanted, first, 2);
      }
    }
  }

  lemma {:induction false} KeptGrows(c: Connect, serverURIcount: nat, wanted: int, ok: nat -> bool, k: nat)
    requires Queued(c, serverURIcount, wanted)
    ensures Kept(c, serverURIcount, wanted, ok, k).currentURI >= c.currentURI
    decreases AttemptsLeft(c, serverURIcount, wanted)
  {
    var tried := c.(version := VersionToTry(c, wanted));
    if !ok(k) && CheckConn(tried, serverURIcount, wanted) {
      KeptGrows(Requeued(tried, wanted), serverURIcount, wanted, ok, k + 1);
    }
  }

  /** A reconnect tries what a fresh connect would try, whatever succeeds, exactly when there is one
      address only or the first connect succeeded at the first address. */
  lemma ReconnectStartsOverIff(serverURIcount: nat, wanted: int, first: nat -> bool)
    ensures (forall ok: nat -> bool ::
               ReconnectAttempts(serverURIcount, wanted, first, ok) == UntilSuccess(AllFrom(0, serverURIcount, wanted), ok, 0))
            <==> Addresses(serverURIcount) == 1 || first(0) || (wanted == VERSION_DEFAULT && first(1))
  {
    var start := Connect(0, VERSION_DEFAULT);
    var uri := Kept(start, serverURIcount, wanted, first, 0).currentURI;
    KeptIsLastAttempt(start, serverURIcount, wanted, first, 0);
    EndsAtFirstAddress(serverURIcount, wanted, first);
    forall ok: nat -> bool
      ensures ReconnectAttempts(serverURIcount, wanted, first, ok) == UntilSuccess(AllFrom(uri, serverURIcount, wanted), ok, 0)
    {
      ReconnectGoesOnFromLastAddress(serverURIcount, wanted, first, ok);
    }
    var always: nat -> bool := _ => true;
    AllFromAddresses(uri, serverURIcount, wanted);
    AllFromAddresses(0, serverURIcount, wanted);
    assert UntilSuccess(AllFrom(uri, serverURIcount, wanted), always, 0)[0].uri == uri;
    assert UntilSuccess(AllFrom(0, serverURIcount, wanted), always, 0)[0].uri == 0;
  }

  /** The command kept after any number of reconnects. */
  function LaterKept(kept: Connect, serverURIcount: nat, wanted: int, oks: seq<nat -> bool>): (later: Connect)
    requires Queued(Again(kept, wanted), serverURIcount, wanted)
    ensures Queued(Again(later, wanted), serverURIcount, wanted)
    decreases |oks|
  {
    if oks == [] then kept
    else
      KeptIsLastAttempt(Again(kept, wanted), serverURIcount, wanted, oks[0], 0);
      LaterKept(Kept(Again(kept, wanted), serverURIcount, wanted, oks[0], 0), serverURIcount, wanted, oks[1..])
  }

  lemma {:induction false} LaterKeptGrows(kept: Connect, serverURIcount: nat, wanted: int, oks: seq<nat -> bool>)
    requires Queued(Again(kept, wanted), serverURIcount, wanted)
    ensures LaterKept(kept, serverURIcount, wanted, oks).currentURI >= kept.currentURI
    decreases |oks|
  {
    if oks != [] {
      KeptIsLastAttempt(Again(kept, wanted), serverURIcount, wanted, oks[0], 0);
      KeptGrows(Again(kept, wanted), serverURIcount, wanted, oks[0], 0);
      LaterKeptGrows(Kept(Again(kept, wanted), serverURIcount, wanted, oks[0], 0), serverURIcount, wanted, oks[1..]);
    }
  }

  /** After any number of reconnects, whatever their outcomes, the next one tries no address before the
      one that the first connect tried last. */
  lemma NeverGoesBack(serverURIcount: nat, wanted: int, first: nat -> bool, oks: seq<nat -> bool>, ok: nat -> bool)
    ensures var start := Connect(0, VERSION_DEFAULT);
            var made := AsyncAttempts(start, serverURIcount, wanted, first, 0);
            var later := LaterKept(FirstKept(serverURIcount, wanted, first), serverURIcount, wanted, oks);
            var again := AsyncAttempts(Again(later, wanted), serverURIcount, wanted, ok, 0);
            && made != []
            && forall i :: 0 <= i < |again| ==> made[|made| - 1].uri <= again[i].uri < Addresses(serverURIcount)
  {
    var start := Connect(0, VERSION_DEFAULT);
    KeptIsLastAttempt(start, serverURIcount, wanted, first, 0);
    var kept := FirstKept(serverURIcount, wanted, first);
    var later := LaterKept(kept, serverURIcount, wanted, oks);
    LaterKeptGrows(kept, serverURIcount, wanted, oks);
    AsyncFollowsPlan(Again(later, wanted), serverURIcount, wanted, ok, 0);
    AllFromAddresses(later.currentURI, serverURIcount, wanted);
    UntilSuccessStops(AllFrom(later.currentURI, serverURIcount, wanted), ok, 0);
  }

  /** With two addresses of which only the second answered, no later reconnect tries the first again,
      which a fresh connect tries at once. */
  lemma FirstAddressForgotten(oks: seq<nat -> bool>, ok: nat -> bool)
    ensures var later := LaterKept(FirstKept(2, VERSION_DEFAULT, k => k == 2), 2, VERSION_DEFAULT, oks);
            var again := AsyncAttempts(Again(later, VERSION_DEFAULT), 2, VERSION_DEFAULT, ok, 0);
            && (forall i :: 0 <= i < |again| ==> again[i].uri == 1)
            && UntilSuccess(AllFrom(0, 2, VERSION_DEFAULT), ok, 0)[0] == Attempt(0, VERSION_3_1_1)
  {
    var first: nat -> bool := k => k == 2;
    NeverGoesBack(2, VERSION_DEFAULT, first, oks, ok);
    AsyncFollowsPlan(Connect(0, VERSION_DEFAULT), 2, VERSION_DEFAULT, first, 0);
    TwoAddresses();
    var all := AllFrom(0, 2, VERSION_DEFAULT);
    UntilSuccessUnfolds(all, first, 0);
    UntilSuccessUnfolds(all[1..], first, 1);
    UntilSuccessUnfolds(all[2..], first, 2);
    UntilSuccessUnfolds(all, ok, 0);
  }

  lemma TwoAddresses()
    ensures AllFrom(1, 2, VERSION_DEFAULT) == [Attempt(1, VERSION_3_1_1), Attempt(1, VERSION_3_1)]
    ensures AllFrom(0, 2, VERSION_DEFAULT) ==
            [Attempt(0, VERSION_3_1_1), Attempt(0, VERSION_3_1), Attempt(1, VERSION_3_1_1), Attempt(1, VERSION_3_1)]
  {
    assert AllFrom(2, 2, VERSION_DEFAULT) == [];
  }

  /** Attempt number i in figures: at each address version 4 and then 3, or the version asked for. */
  lemma {:induction false} AttemptNumber(uri: nat, serverURIcount: nat, wanted: int, i: nat)
    requires i < |AllFrom(uri, serverURIcount, wanted)|
    ensures AllFrom(uri, serverURIcount, wanted)[i] ==
            if wanted == 0 then Attempt(uri + i / 2, if i % 2 == 0 then 4 else 3) else Attempt(uri + i, wanted)
    decreases i
  {
    var n := |VersionsAt(uri, wanted)|;
    if i >= n {
      AttemptNumber(uri + 1, serverURIcount, wanted, i - n);
    }
  }

  // The two clients as loops

  lemma {:induction false} UntilSuccessSplit(a: seq<Attempt>, b: seq<Attempt>, ok: nat -> bool, k: nat)
    requires a != []
    ensures var done := UntilSuccess(a, ok, k);
            && done != []
            && UntilSuccess(a + b, ok, k) ==
               if ok(k + |done| - 1) then done else done + UntilSuccess(b, ok, k + |done|)
  {
    hide UntilSuccess;
    var a0, a1 := a[0], a[1..];
    assert a == [a0] + a1;
    UntilSuccessCons(a0, a1, ok, k);
    UntilSuccessCons(a0, a1 + b, ok, k);
    Regroup([a0], a1, b);
    if a1 == [] {
      assert a1 + b == b;
      UntilSuccessNone(ok, k + 1);
      assert [a0] + [] == [a0];
    } else if !ok(k) {
      UntilSuccessSplit(a1, b, ok, k + 1);
      var rest := UntilSuccess(a1, ok, k + 1);
      Regroup([a0], rest, UntilSuccess(b, ok, k + 1 + |rest|));
    }
  }

  lemma UntilSuccessCons(a: Attempt, rest: seq<Attempt>, ok: nat -> bool, k: nat)
    ensures UntilSuccess([a] + rest, ok, k) == if ok(k) then [a] else [a] + UntilSuccess(rest, ok, k + 1)
  {
    assert ([a] + rest)[1..] == rest;
  }

  lemma UntilSuccessNone(ok: nat -> bool, k: nat)
    ensures UntilSuccess([], ok, k) == []
  {
  }

  /** The synchronous client at one address: version 3.1.1 and then 3.1, or the version asked for. */
  method ConnectURI(uri: nat, wanted: int, ok: nat -> bool, k: nat) returns (made: seq<Attempt>, connected: bool)
    ensures made == UntilSuccess(VersionsAt(uri, wanted), ok, k) && made != []
    ensures connected == ok(k + |made| - 1)
  {
    ghost var plan := VersionsAt(uri, wanted);
    UntilSuccessUnfolds(plan, ok, k);
    UntilSuccessUnfolds(plan[1..], ok, k + 1);
    if wanted == VERSION_DEFAULT {
      connected := ok(k);
      made := [Attempt(uri, VERSION_3_1_1)];
      if !connected {
        connected := ok(k + 1);
        made := made + [Attempt(uri, VERSION_3_1)];
      }
    } else {
      connected := ok(k);
      made := [Attempt(uri, wanted)];
    }
  }

  /** The first attempt, and the rest when it fails and there is more to try. */
  lemma UntilSuccessUnfolds(all: seq<Attempt>, ok: nat -> bool, k: nat)
    ensures UntilSuccess(all, ok, k) ==
            if all == [] then [] else if ok(k) || |all| == 1 then [all[0]] else [all[0]] + UntilSuccess(all[1..], ok, k + 1)
  {
    if |all| == 1 {
      assert all[1..] == [];
    }
  }

  /** The synchronous client over all addresses. */
  method ConnectSync(serverURIcount: nat, wanted: int, ok: nat -> bool) returns (made: seq<Attempt>, connected: bool)
    ensures made == UntilSuccess(AllFrom(0, serverURIcount, wanted), ok, 0) && made != []
    ensures connected == ok(|made| - 1)
  {
    hide VersionsAt, UntilSuccess;
    ghost var whole := UntilSuccess(AllFrom(0, serverURIcount, wanted), ok, 0);
    made, connected := [], false;
    var i := 0;
    assert [] + whole == whole;
    while i < Addresses(serverURIcount) && !connected
      invariant 0 <= i <= Addresses(serverURIcount) && (made == [] <==> i == 0) && (i == 0 ==> !connected)
      invariant whole == made + if connected then [] else UntilSuccess(AllFrom(i, serverURIcount, wanted), ok, |made|)
      invariant made != [] ==> connected == ok(|made| - 1)
    {
      ghost var before := made;
      var more := AllFrom(i + 1, serverURIcount, wanted);
      var here: seq<Attempt>;
      here, connected := ConnectURI(i, wanted, ok, |made|);
      SomeVersion(i, wanted);
      UntilSuccessSplit(VersionsAt(i, wanted), more, ok, |made|);
      made := made + here;
      ghost var rest := UntilSuccess(more, ok, |made|);
      Regroup(before, here, rest);
      i := i + 1;
    }
    if !connected {
      NothingLeft(serverURIcount, wanted, ok, |made|);
    }
    assert made + [] == made;
  }

  lemma SomeVersion(uri: nat, wanted: int)
    ensures VersionsAt(uri, wanted) != []
  {
  }

  lemma NothingLeft(serverURIcount: nat, wanted: int, ok: nat -> bool, k: nat)
    ensures UntilSuccess(AllFrom(Addresses(serverURIcount), serverURIcount, wanted), ok, k) == []
  {
  }

  /** The asynchronous client: the command goes back to the queue after a failure while there is
      more to try.  The command it ends with is kept. */
  method ConnectAsync(start: Connect, serverURIcount: nat, wanted: int, ok: nat -> bool) returns (made: seq<Attempt>, connected: bool, conn: Connect)
    requires Queued(start, serverURIcount, wanted)
    ensures made == UntilSuccess(Plan(start, serverURIcount, wanted), ok, 0) && made != []
    ensures connected == ok(|made| - 1)
    ensures conn == Kept(start, serverURIcount, wanted, ok, 0)
  {
    AsyncFollowsPlan(start, serverURIcount, wanted, ok, 0);
    ghost var whole := AsyncAttempts(start, serverURIcount, wanted, ok, 0);
    ghost var last := Kept(start, serverURIcount, wanted, ok, 0);
    hide Plan, UntilSuccess, AsyncAttempts, Kept, Queued, VersionToTry, CheckConn, Requeued, AttemptsLeft;
    conn := start;
    made, connected := [], false;
    var queued := true;
    assert [] + whole == whole;
    while queued
      invariant queued ==> Queued(conn, serverURIcount, wanted)
      invariant whole == made + if queued then AsyncAttempts(conn, serverURIcount, wanted, ok, |made|) else []
      invariant last == if queued then Kept(conn, serverURIcount, wanted, ok, |made|) else conn
      invariant !queued ==> made != [] && connected == ok(|made| - 1)
      decreases if queued then AttemptsLeft(conn, serverURIcount, wanted) + 1 else 0
    {
      AsyncStep(conn, serverURIcount, wanted, ok, |made|);
      ghost var before := made;
      conn := conn.(version := VersionToTry(conn, wanted));
      ghost var tried := conn;
      connected := ok(|made|);
      made := made + [Attempt(conn.currentURI, conn.version)];
      if !connected && CheckConn(conn, serverURIcount, wanted) {
        conn := Requeued(conn, wanted);
        ghost var rest := AsyncAttempts(conn, serverURIcount, wanted, ok, |made|);
        Regroup(before, [Attempt(tried.currentURI, tried.version)], rest);
      } else {
        queued := false;
      }
    }
  }

  /** One turn of the queued command. */
  lemma AsyncStep(c: Connect, serverURIcount: nat, wanted: int, ok: nat -> bool, k: nat)
    requires Queued(c, serverURIcount, wanted)
    ensures var tried := c.(version := VersionToTry(c, wanted));
            var again := Requeued(tried, wanted);
            var now := [Attempt(tried.currentURI, tried.version)];
            if !ok(k) && CheckConn(tried, serverURIcount, wanted)
            then && Queued(again, serverURIcount, wanted)
                 && AttemptsLeft(again, serverURIcount, wanted) < AttemptsLeft(c, serverURIcount, wanted)
                 && AsyncAttempts(c, serverURIcount, wanted, ok, k) == now + AsyncAttempts(again, serverURIcount, wanted, ok, k + 1)
                 && Kept(c, serverURIcount, wanted, ok, k) == Kept(again, serverURIcount, wanted, ok, k + 1)
            else AsyncAttempts(c, serverURIcount, wanted, ok, k) == now && Kept(c, serverURIcount, wanted, ok, k) == tried
  {
  }
}
