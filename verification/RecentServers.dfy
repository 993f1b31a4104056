/** The bounded list of recently used servers. */
module RecentServers {
  import opened Sequences
  import opened Options

  const MAX_SERVERS: nat := 10

  datatype ServerKind = Local | Ssh(user: Option<string>, host: string, sshPort: Option<nat>)

  datatype CachedSession = CachedSession(wordId: string, name: string, cwd: string)

  datatype Server = Server(text: string)

  datatype Entry = Entry(server: Server, display: string, lastUsed: nat, sessions: seq<CachedSession>, kind: ServerKind)

  function Keys(es: seq<Entry>): (ks: seq<Server>)
    ensures |ks| == |es| && forall i :: 0 <= i < |es| ==> ks[i] == es[i].server
  {
    seq(|es|, i requires 0 <= i < |es| => es[i].server)
  }

  function IndexOf(es: seq<Entry>, server: Server): (k: nat)
    ensures k <= |es| && (k < |es| ==> es[k].server == server)
    ensures forall j :: 0 <= j < k ==> es[j].server != server
  {
    if es == [] || es[0].server == server then 0 else 1 + IndexOf(es[1..], server)
  }

  /** `sort_by_key(Reverse(last_used))`: latest first, stable. */
  function Sort(es: seq<Entry>): (r: seq<Entry>)
    ensures |r| == |es|
  {
    if es == [] then [] else Insert(es[0], Sort(es[1..]))
  }

  function Insert(e: Entry, es: seq<Entry>): (r: seq<Entry>)
    ensures |r| == |es| + 1
  {
    if es == [] || es[0].lastUsed <= e.lastUsed then [e] + es else [es[0]] + Insert(e, es[1..])
  }

  function Take(es: seq<Entry>): (r: seq<Entry>)
    ensures |r| <= MAX_SERVERS
  {
    if |es| <= MAX_SERVERS then es else es[..MAX_SERVERS]
  }

  /** The list before sorting: the server's entry refreshed in place, or a new one at the end. */
  function Upsert(es: seq<Entry>, server: Server, display: string, kind: ServerKind, now: nat): seq<Entry> {
    var i := IndexOf(es, server);
    if i < |es| then es[i := es[i].(lastUsed := now, display := display, kind := kind)]
    else es + [Entry(server, display, now, [], kind)]
  }

  function Recorded(es: seq<Entry>, server: Server, display: string, kind: ServerKind, now: nat): seq<Entry> {
    Take(Sort(Upsert(es, server, display, kind, now)))
  }

  class Cache {
    var servers: seq<Entry>

    constructor ()
      ensures servers == []
    {
      servers := [];
    }

    method Position(server: Server) returns (k: nat)
      ensures k == IndexOf(servers, server)
    {
      k := 0;
      while k < |servers| && servers[k].server != server
        invariant k <= |servers| && IndexOf(servers, server) == k + IndexOf(servers[k..], server)
      {
        assert servers[k..][1..] == servers[k + 1..];
        k := k + 1;
      }
    }

    /** `record_connection`, at time `now`. */
    method RecordConnection(server: Server, display: string, kind: ServerKind, now: nat)
      modifies this
      ensures servers == Recorded(old(servers), server, display, kind, now)
    {
      var k := Position(server);
      if k < |servers| {
        servers := servers[k := servers[k].(lastUsed := now, display := display, kind := kind)];
      } else {
        servers := servers + [Entry(server, display, now, [], kind)];
      }
      servers := Sort(servers);
      if |servers| > MAX_SERVERS { servers := servers[..MAX_SERVERS]; }
    }

    /** `update_sessions`: only the session list of that one server changes. */
    method UpdateSessions(server: Server, live: seq<CachedSession>)
      modifies this
      ensures Keys(servers) == Keys(old(servers))
      ensures forall i :: 0 <= i < |servers| ==>
        servers[i] == if i == IndexOf(old(servers), server) then old(servers)[i].(sessions := live) else old(servers)[i]
    {
      var k := Position(server);
      if k < |servers| { servers := servers[k := servers[k].(sessions := live)]; }
    }
  }

  // ----- sorting

  /** Latest first; ties allowed. */
  predicate Recency(es: seq<Entry>) {
    forall i, j :: 0 <= i < j < |es| ==> es[i].lastUsed >= es[j].lastUsed
  }

  predicate DistinctServers(es: seq<Entry>) {
    forall i, j :: 0 <= i < j < |es| ==> es[i].server != es[j].server
  }

  lemma {:induction false} InsertFirst(e: Entry, es: seq<Entry>)
    requires forall i :: 0 <= i < |es| ==> es[i].lastUsed <= e.lastUsed
    ensures Insert(e, es) == [e] + es
  {}

  lemma {:induction false} SortSorted(es: seq<Entry>)
    requires Recency(es)
    ensures Sort(es) == es
  {
    if es != [] {
      SortSorted(es[1..]);
      InsertFirst(es[0], es[1..]);
    }
  }

  lemma SortStep(e: Entry, es: seq<Entry>)
    ensures Sort([e] + es) == Insert(e, Sort(es))
  {
    assert ([e] + es)[1..] == es;
  }

  lemma InsertBehind(e: Entry, x: Entry, es: seq<Entry>)
    requires e.lastUsed < x.lastUsed
    ensures Insert(e, [x] + es) == [x] + Insert(e, es)
  {
    assert ([x] + es)[1..] == es;
  }

  lemma RecencyTail(es: seq<Entry>)
    requires Recency(es) && es != []
    ensures Recency(es[1..]) && forall i :: 0 <= i < |es| - 1 ==> es[1..][i].lastUsed <= es[0].lastUsed
  {
    assert forall i :: 0 <= i < |es| - 1 ==> es[1..][i] == es[i + 1];
  }

  /** Sorting moves a latest entry, wherever it stands, to the front and keeps the rest. */
  lemma {:induction false} SortLatest(a: seq<Entry>, x: Entry, b: seq<Entry>, rest: seq<Entry>)
    requires rest == a + b && Recency(rest) && forall i :: 0 <= i < |rest| ==> rest[i].lastUsed < x.lastUsed
    ensures Sort(a + [x] + b) == [x] + rest
    decreases |a|
  {
    hide Sort, Insert, Recency;
    if a == [] {
      assert a + [x] + b == [x] + b && rest == b;
      SortSorted(b);
      SortStep(x, b);
      InsertFirst(x, b);
    } else {
      assert rest[0] == a[0] && rest[1..] == a[1..] + b;
      RecencyTail(rest);
      SortLatest(a[1..], x, b, rest[1..]);
      assert a + [x] + b == [a[0]] + (a[1..] + [x] + b);
      SortStep(a[0], a[1..] + [x] + b);
      InsertBehind(a[0], x, rest[1..]);
      InsertFirst(a[0], rest[1..]);
      assert rest == [rest[0]] + rest[1..];
    }
  }

  // ----- every run of connections

  datatype Connection = Connection(server: Server, display: string, kind: ServerKind, at: nat)

  /** The cache after a history of connections, the latest last. */
  function Run(history: seq<Connection>): seq<Entry> {
    if history == [] then []
    else
      var c := history[|history| - 1];
      Recorded(Run(history[..|history| - 1]), c.server, c.display, c.kind, c.at)
  }

  /** The distinct servers of a history, most recently connected first. */
  function ByRecency(history: seq<Connection>): seq<Server> {
    if history == [] then []
    else
      var s := history[|history| - 1].server;
      [s] + Without(ByRecency(history[..|history| - 1]), s)
  }

  function Without(ss: seq<Server>, s: Server): (r: seq<Server>)
    ensures |r| <= |ss| && s !in r
  {
    if ss == [] then [] else if ss[0] == s then Without(ss[1..], s) else [ss[0]] + Without(ss[1..], s)
  }

  function FirstTen(ss: seq<Server>): seq<Server> {
    if |ss| <= 10 then ss else ss[..10]
  }

  predicate Increasing(history: seq<Connection>) {
    forall i, j :: 0 <= i < j < |history| ==> history[i].at < history[j].at
  }

  /** What the list looks like right before time `now`. */
  ghost predicate Settled(es: seq<Entry>, now: nat) {
    && |es| <= MAX_SERVERS && Recency(es) && DistinctServers(es)
    && forall i :: 0 <= i < |es| ==> es[i].lastUsed < now
  }

  /** The list without the server's own entry. */
  function Others(es: seq<Entry>, server: Server): seq<Entry> {
    var i := IndexOf(es, server);
    if i < |es| then es[..i] + es[i + 1..] else es
  }

  function Refreshed(es: seq<Entry>, server: Server, display: string, kind: ServerKind, now: nat): Entry {
    var i := IndexOf(es, server);
    Entry(server, display, now, if i < |es| then es[i].sessions else [], kind)
  }

  lemma OthersSettled(es: seq<Entry>, server: Server, now: nat)
    requires Settled(es, now)
    ensures Settled(Others(es, server), now)
    ensures forall k :: 0 <= k < |Others(es, server)| ==> Others(es, server)[k].server != server
  {
    hide IndexOf;
    var i, o := IndexOf(es, server), Others(es, server);
    if i < |es| {
      forall k | 0 <= k < |o|
        ensures o[k] == es[if k < i then k else k + 1] && o[k].lastUsed < now && o[k].server != server
      {
        assert o[k] == es[if k < i then k else k + 1];
      }
      forall j, k | 0 <= j < k < |o| ensures o[j].lastUsed >= o[k].lastUsed && o[j].server != o[k].server {
        var j', k' := if j < i then j else j + 1, if k < i then k else k + 1;
        assert o[j] == es[j'] && o[k] == es[k'] && j' < k';
      }
    }
  }

  lemma UpsertParts(es: seq<Entry>, server: Server, display: string, kind: ServerKind, now: nat)
    returns (a: seq<Entry>, b: seq<Entry>)
    ensures Upsert(es, server, display, kind, now) == a + [Refreshed(es, server, display, kind, now)] + b
    ensures Others(es, server) == a + b
  {
    hide IndexOf;
    var i := IndexOf(es, server);
    a, b := es[..i], if i < |es| then es[i + 1..] else [];
  }

  lemma FrontSettled(x: Entry, es: seq<Entry>, now: nat)
    requires Settled(es, now) && x.lastUsed == now && forall k :: 0 <= k < |es| ==> es[k].server != x.server
    ensures Settled(Take([x] + es), now + 1)
  {}

  /** One connection later than all before: its server moves to the front, keeping its sessions,
      and the others keep their order. */
  lemma RecordMovesToFront(es: seq<Entry>, server: Server, display: string, kind: ServerKind, now: nat)
    requires Settled(es, now)
    ensures Recorded(es, server, display, kind, now)
         == Take([Refreshed(es, server, display, kind, now)] + Others(es, server))
    ensures Settled(Recorded(es, server, display, kind, now), now + 1)
    ensures var r := Recorded(es, server, display, kind, now);
      && r != [] && r[0].server == server && r[0].display == display && r[0].kind == kind && r[0].lastUsed == now
      && (forall j :: 0 <= j < |es| && es[j].server == server ==> r[0].sessions == es[j].sessions)
      && (server !in Keys(es) ==> r[0].sessions == [])
  {
    hide Sort, IndexOf, Upsert, Others, Take;
    var x, rest := Refreshed(es, server, display, kind, now), Others(es, server);
    var a, b := UpsertParts(es, server, display, kind, now);
    OthersSettled(es, server, now);
    SortLatest(a, x, b, rest);
    FrontSettled(x, rest, now);
    TakeHead(x, rest);
    forall j | 0 <= j < |es| && es[j].server == server ensures j == IndexOf(es, server) {}
    assert forall j :: 0 <= j < |es| ==> Keys(es)[j] == es[j].server;
  }

  lemma TakeHead(x: Entry, rest: seq<Entry>)
    ensures Take([x] + rest) != [] && Take([x] + rest)[0] == x
  {}

  lemma {:induction false} WithoutAbsent(ss: seq<Server>, s: Server)
    requires s !in ss
    ensures Without(ss, s) == ss
  {
    if ss != [] { WithoutAbsent(ss[1..], s); }
  }

  lemma {:induction false} WithoutOne(ss: seq<Server>, s: Server, i: nat)
    requires i < |ss| && ss[i] == s && forall j :: 0 <= j < |ss| && j != i ==> ss[j] != s
    ensures Without(ss, s) == ss[..i] + ss[i + 1..]
  {
    if i == 0 {
      WithoutAbsent(ss[1..], s);
    } else {
      WithoutOne(ss[1..], s, i - 1);
      assert ss[..i] == [ss[0]] + ss[1..][..i - 1];
    }
  }

  lemma {:induction false} WithoutConcat(a: seq<Server>, b: seq<Server>, s: Server)
    ensures Without(a + b, s) == Without(a, s) + Without(b, s)
  {
    if a == [] {
      assert a + b == b;
    } else {
      assert (a + b)[1..] == a[1..] + b;
      WithoutConcat(a[1..], b, s);
    }
  }

  lemma {:induction false} WithoutLength(ss: seq<Server>, s: Server)
    requires Distinct(ss)
    ensures |Without(ss, s)| >= |ss| - 1
    ensures forall x :: x in Without(ss, s) ==> x in ss
    ensures Distinct(Without(ss, s))
  {
    if ss != [] {
      var tail := Without(ss[1..], s);
      WithoutLength(ss[1..], s);
      if ss[0] == s {
        WithoutAbsent(ss[1..], s);
      } else {
        forall i | 0 <= i < |tail| ensures tail[i] != ss[0] {
          assert tail[i] in tail;
          var k :| 0 <= k < |ss| - 1 && ss[1..][k] == tail[i];
          assert ss[k + 1] == tail[i];
        }
      }
    }
  }

  /** Moving to the front and cutting at ten commute: what was cut before cannot come back. */
  lemma CutAndMove(ss: seq<Server>, s: Server)
    requires Distinct(ss)
    ensures FirstTen([s] + Without(FirstTen(ss), s)) == FirstTen([s] + Without(ss, s))
  {
    if |ss| > MAX_SERVERS {
      var a, b := ss[..MAX_SERVERS], ss[MAX_SERVERS..];
      assert ss == a + b;
      WithoutConcat(a, b, s);
      WithoutLength(a, s);
    }
  }

  lemma {:induction false} ByRecencyDistinct(history: seq<Connection>)
    ensures Distinct(ByRecency(history))
  {
    if history != [] {
      var n := |history| - 1;
      ByRecencyDistinct(history[..n]);
      WithoutLength(ByRecency(history[..n]), history[n].server);
    }
  }

  /** After any run of connections at increasing times the list holds exactly the ten most
      recently connected distinct servers, most recent first. */
  lemma {:induction false} RunIsRecency(history: seq<Connection>, now: nat)
    requires Increasing(history) && (history != [] ==> history[|history| - 1].at < now)
    ensures Settled(Run(history), now)
    ensures Keys(Run(history)) == FirstTen(ByRecency(history))
  {
    hide Recorded, FirstTen;
    if history == [] {
      NoServers();
    } else {
      var n := |history| - 1;
      var past, c := history[..n], history[n];
      RunIsRecency(past, c.at);
      var es := Run(past);
      RecordMovesToFront(es, c.server, c.display, c.kind, c.at);
      RecordedKeys(es, c.server, c.display, c.kind, c.at);
      ByRecencyDistinct(past);
      CutAndMove(ByRecency(past), c.server);
    }
  }

  lemma NoServers()
    ensures Keys([]) == FirstTen([])
  {}

  lemma OtherKeys(es: seq<Entry>, server: Server)
    requires DistinctServers(es)
    ensures Keys(Others(es, server)) == Without(Keys(es), server)
  {
    hide Without;
    var i := IndexOf(es, server);
    if i < |es| {
      WithoutOne(Keys(es), server, i);
      assert Keys(es[..i] + es[i + 1..]) == Keys(es)[..i] + Keys(es)[i + 1..];
    } else {
      WithoutAbsent(Keys(es), server);
    }
  }

  lemma TakeKeys(x: Entry, es: seq<Entry>)
    ensures Keys(Take([x] + es)) == FirstTen([x.server] + Keys(es))
  {
    assert Keys([x] + es) == [x.server] + Keys(es);
  }

  lemma RecordedKeys(es: seq<Entry>, server: Server, display: string, kind: ServerKind, now: nat)
    requires Settled(es, now)
    ensures Keys(Recorded(es, server, display, kind, now)) == FirstTen([server] + Without(Keys(es), server))
  {
    hide Recorded, Keys, Without, Take, FirstTen, Others;
    RecordMovesToFront(es, server, display, kind, now);
    OtherKeys(es, server);
    TakeKeys(Refreshed(es, server, display, kind, now), Others(es, server));
  }

  // ----- equal timestamps

  /** A front in order and no older than the rest stays in front. */
  lemma {:induction false} SortFront(a: seq<Entry>, rest: seq<Entry>)
    requires Recency(a) && forall i, x :: 0 <= i < |a| && x in rest ==> a[i].lastUsed >= x.lastUsed
    ensures Sort(a + rest) == a + Sort(rest)
    decreases |a|
  {
    hide Sort, Insert, Recency;
    if a == [] {
      assert a + rest == rest && a + Sort(rest) == Sort(rest);
    } else {
      var tail := a[1..];
      RecencyTail(a);
      assert forall i :: 0 <= i < |tail| ==> tail[i] == a[i + 1];
      SortFront(tail, rest);
      assert a + rest == [a[0]] + (tail + rest);
      SortStep(a[0], tail + rest);
      SortKeeps(rest);
      assert forall i :: 0 <= i < |Sort(rest)| ==> Sort(rest)[i] in Sort(rest);
      InsertFirst(a[0], tail + Sort(rest));
      assert [a[0]] + (tail + Sort(rest)) == a + Sort(rest);
    }
  }

  /** A list in order falls into the entries used no earlier than `now` and the older ones. */
  lemma {:induction false} CutAt(es: seq<Entry>, now: nat) returns (a: seq<Entry>, b: seq<Entry>)
    requires Recency(es)
    ensures es == a + b && Recency(a) && Recency(b)
    ensures forall j :: 0 <= j < |a| ==> a[j].lastUsed >= now
    ensures forall j :: 0 <= j < |b| ==> b[j].lastUsed < now
  {
    hide Recency;
    AtMostFirst(es);
    if es == [] || es[0].lastUsed < now {
      NothingSorted();
      a, b := [], es;
    } else {
      RecencyTail(es);
      var front;
      front, b := CutAt(es[1..], now);
      forall x | x in front ensures x.lastUsed <= es[0].lastUsed {
        assert x in front + b;
        assert x in es[1..];
      }
      RecencyCons(es[0], front);
      a := [es[0]] + front;
      assert es == [es[0]] + (front + b);
    }
  }

  lemma Regrouped(a: seq<Entry>, b: seq<Entry>, x: Entry)
    ensures a + (b + [x]) == (a + b) + [x] && a + ([x] + b) == a + [x] + b
  {}

  lemma SortBehind(a: seq<Entry>, b: seq<Entry>, x: Entry)
    requires Recency(a) && Recency(b)
    requires forall j :: 0 <= j < |a| ==> a[j].lastUsed >= x.lastUsed
    requires forall j :: 0 <= j < |b| ==> b[j].lastUsed < x.lastUsed
    ensures Sort(a + (b + [x])) == a + ([x] + b)
  {
    hide Sort, Recency;
    var rest := b + [x];
    forall y | y in rest ensures y.lastUsed <= x.lastUsed {
      var k :| 0 <= k < |rest| && rest[k] == y;
    }
    SortFront(a, rest);
    assert b + [x] + [] == rest && b + [] == b;
    SortLatest(b, x, [], b);
  }

  /** Timestamps are whole seconds, so a new server can tie with others. It goes behind every
      server used in the same second, and is dropped at once exactly when the list is full of
      servers used no earlier. */
  lemma NewServerKeptIff(es: seq<Entry>, server: Server, display: string, kind: ServerKind, now: nat)
    requires Recency(es) && |es| <= MAX_SERVERS && server !in Keys(es)
    ensures var r := Recorded(es, server, display, kind, now);
      && (server in Keys(r) <==> |es| < MAX_SERVERS || es[MAX_SERVERS - 1].lastUsed < now)
      && (r != [] && r[0].server == server <==> es == [] || es[0].lastUsed < now)
  {
    hide Sort, Recency;
    var x := Entry(server, display, now, [], kind);
    var a, b := CutAt(es, now);
    assert forall k :: 0 <= k < |es| ==> Keys(es)[k] == es[k].server != server;
    assert IndexOf(es, server) == |es|;
    SortBehind(a, b, x);
    Regrouped(a, b, x);
    PlacedBetween(a, b, x);
    assert |a| > 0 ==> es[0] == a[0];
    assert a == [] ==> es == b;
  }

  lemma PlacedBetween(a: seq<Entry>, b: seq<Entry>, x: Entry)
    requires |a| + |b| <= MAX_SERVERS
    requires forall k :: 0 <= k < |a + b| ==> (a + b)[k].server != x.server
    ensures var r := Take(a + ([x] + b));
      && (x.server in Keys(r) <==> |a| < MAX_SERVERS)
      && r != [] && (r[0].server == x.server <==> a == [])
  {
    var all := a + ([x] + b);
    var r := Take(all);
    assert forall k :: 0 <= k < |a| ==> all[k] == (a + b)[k];
    assert forall k :: |a| < k < |all| ==> all[k] == (a + b)[k - 1];
    assert forall k :: 0 <= k < |r| ==> Keys(r)[k] == all[k].server;
    if |a| < MAX_SERVERS { assert Keys(r)[|a|] == x.server; }
  }

  // ----- any timestamps

  /** The first entry that none is later than. */
  function FirstLatest(es: seq<Entry>): (k: nat)
    requires es != []
    ensures k < |es|
    ensures forall j :: 0 <= j < k ==> es[j].lastUsed < es[k].lastUsed
    ensures forall j :: k < j < |es| ==> es[j].lastUsed <= es[k].lastUsed
  {
    if |es| == 1 then 0
    else
      var k := FirstLatest(es[1..]) + 1;
      assert forall j :: 0 < j < |es| ==> es[j] == es[1..][j - 1];
      if es[k].lastUsed > es[0].lastUsed then k else 0
  }

  lemma {:induction false} SortHead(es: seq<Entry>)
    requires es != []
    ensures Sort(es)[0] == es[FirstLatest(es)]
  {
    if |es| > 1 {
      SortHead(es[1..]);
      assert es[1..][FirstLatest(es[1..])] == es[FirstLatest(es[1..]) + 1];
    }
  }

  lemma {:induction false} InsertMembers(e: Entry, es: seq<Entry>)
    ensures forall x :: x in Insert(e, es) <==> x == e || x in es
  {
    if es != [] && es[0].lastUsed > e.lastUsed {
      InsertMembers(e, es[1..]);
      assert forall x :: x in es <==> x == es[0] || x in es[1..];
    }
  }

  lemma RecencyCons(e: Entry, es: seq<Entry>)
    requires Recency(es) && forall x :: x in es ==> x.lastUsed <= e.lastUsed
    ensures Recency([e] + es)
  {}

  lemma {:induction false} InsertRecency(e: Entry, es: seq<Entry>)
    requires Recency(es)
    ensures Recency(Insert(e, es))
  {
    hide Recency;
    if es == [] || es[0].lastUsed <= e.lastUsed {
      AtMostFirst(es);
      RecencyCons(e, es);
    } else {
      AtMostFirst(es);
      RecencyTail(es);
      InsertRecency(e, es[1..]);
      InsertMembers(e, es[1..]);
      RecencyCons(es[0], Insert(e, es[1..]));
    }
  }

  lemma AtMostFirst(es: seq<Entry>)
    requires Recency(es)
    ensures es != [] ==> forall x :: x in es ==> x.lastUsed <= es[0].lastUsed
  {}

  lemma DistinctJoin(e: Entry, es: seq<Entry>)
    requires DistinctServers(es) && forall x :: x in es ==> x.server != e.server
    ensures DistinctServers([e] + es)
  {
    var all := [e] + es;
    forall i, j | 0 <= i < j < |all| ensures all[i].server != all[j].server {
      assert all[j] == es[j - 1] && es[j - 1] in es;
      if i > 0 { assert all[i] == es[i - 1]; }
    }
  }

  lemma DistinctApart(es: seq<Entry>)
    requires DistinctServers(es) && es != []
    ensures DistinctServers(es[1..]) && forall x :: x in es[1..] ==> x.server != es[0].server
  {
    var rest := es[1..];
    forall i, j | 0 <= i < j < |rest| ensures rest[i].server != rest[j].server {
      assert rest[i] == es[i + 1] && rest[j] == es[j + 1];
    }
    forall x | x in rest ensures x.server != es[0].server {
      var k :| 0 <= k < |rest| && rest[k] == x;
      assert x == es[k + 1];
    }
  }

  lemma {:induction false} InsertDistinct(e: Entry, es: seq<Entry>)
    requires DistinctServers(es) && forall x :: x in es ==> x.server != e.server
    ensures DistinctServers(Insert(e, es))
  {
    hide DistinctServers;
    if es == [] || es[0].lastUsed <= e.lastUsed {
      DistinctJoin(e, es);
    } else {
      DistinctApart(es);
      InsertDistinct(e, es[1..]);
      InsertMembers(e, es[1..]);
      DistinctJoin(es[0], Insert(e, es[1..]));
    }
  }

  lemma {:induction false} SortKeeps(es: seq<Entry>)
    ensures forall x :: x in Sort(es) <==> x in es
    ensures Recency(Sort(es)) && (DistinctServers(es) ==> DistinctServers(Sort(es)))
  {
    hide Insert, Recency, DistinctServers;
    if es == [] {
      NothingSorted();
    } else {
      assert es == [es[0]] + es[1..];
      SortKeeps(es[1..]);
      InsertMembers(es[0], Sort(es[1..]));
      InsertRecency(es[0], Sort(es[1..]));
      if DistinctServers(es) {
        DistinctApart(es);
        InsertDistinct(es[0], Sort(es[1..]));
      }
    }
  }

  lemma NothingSorted()
    ensures Recency([]) && DistinctServers([])
  {}

  lemma UpsertKeeps(es: seq<Entry>, server: Server, display: string, kind: ServerKind, now: nat)
    requires DistinctServers(es)
    ensures var i, u := IndexOf(es, server), Upsert(es, server, display, kind, now);
      && i < |u| && u[i].server == server && u[i].lastUsed == now && DistinctServers(u)
      && (if i < |es| then |u| == |es| else |u| == |es| + 1)
      && (forall j :: 0 <= j < |es| && j != i ==> u[j] == es[j])
  {
    hide IndexOf;
  }

  /** Through any history, whatever its timestamps, the list holds at most ten servers, each once,
      none before a later one. */
  lemma {:induction false} RunInOrder(history: seq<Connection>)
    ensures var es := Run(history);
      |es| <= 10 && Recency(es) && DistinctServers(es)
  {
    hide Sort, Upsert;
    if history != [] {
      var n := |history| - 1;
      var c, es := history[n], Run(history[..n]);
      RunInOrder(history[..n]);
      UpsertKeeps(es, c.server, c.display, c.kind, c.at);
      SortKeeps(Upsert(es, c.server, c.display, c.kind, c.at));
    }
  }

  /** The server just connected to leads the list if and only if every entry before its place is older
      than `now` and none behind it is later. The place of a new server is behind all others. */
  lemma LeadsIff(es: seq<Entry>, server: Server, display: string, kind: ServerKind, now: nat)
    requires DistinctServers(es)
    ensures var i, r := IndexOf(es, server), Recorded(es, server, display, kind, now);
      && r != []
      && (r[0].server == server <==>
            && (forall j :: 0 <= j < i ==> es[j].lastUsed < now)
            && (forall j :: i < j < |es| ==> es[j].lastUsed <= now))
  {
    hide Sort, Upsert, IndexOf;
    var i, u := IndexOf(es, server), Upsert(es, server, display, kind, now);
    UpsertKeeps(es, server, display, kind, now);
    SortHead(u);
    var k := FirstLatest(u);
    if k != i { assert u[k].server != server; }
  }

  /** A server already in a list of at most ten stays in it. */
  lemma RefreshKept(es: seq<Entry>, server: Server, display: string, kind: ServerKind, now: nat)
    requires DistinctServers(es) && |es| <= MAX_SERVERS && server in Keys(es)
    ensures server in Keys(Recorded(es, server, display, kind, now))
  {
    hide Sort, Upsert, IndexOf;
    var i, u := IndexOf(es, server), Upsert(es, server, display, kind, now);
    UpsertKeeps(es, server, display, kind, now);
    SortKeeps(u);
    assert u[i] in Sort(u);
    var k :| 0 <= k < |Sort(u)| && Sort(u)[k] == u[i];
    assert Keys(Sort(u))[k] == server;
  }

  /** Two entries of the same second, the second of them refreshed, stay as they are. */
  lemma RefreshInPlace(ea: Entry, eb: Entry)
    requires ea.server != eb.server && ea.lastUsed == eb.lastUsed
    ensures Recorded([ea, eb], eb.server, eb.display, eb.kind, eb.lastUsed) == [ea, eb]
  {
    hide Sort;
    assert IndexOf([ea, eb], eb.server) == 1;
    assert [ea, eb][1 := eb] == [ea, eb];
    SortSorted([ea, eb]);
  }

  lemma AppendInPlace(ea: Entry, eb: Entry)
    requires ea.server != eb.server && ea.lastUsed == eb.lastUsed && eb.sessions == []
    ensures Recorded([ea], eb.server, eb.display, eb.kind, eb.lastUsed) == [ea, eb]
  {
    hide Sort;
    assert IndexOf([ea], eb.server) == 1;
    assert [ea] + [eb] == [ea, eb];
    SortSorted([ea, eb]);
  }

  lemma FirstEntry(e: Entry)
    requires e.sessions == []
    ensures Recorded([], e.server, e.display, e.kind, e.lastUsed) == [e]
  {
    hide Sort;
    assert IndexOf([], e.server) == 0;
    assert [] + [e] == [e];
    SortSorted([e]);
  }

  /** Two servers within one second, the second of them twice: it was used last and stands second. */
  lemma SameSecond(a: Server, b: Server, at: nat)
    requires a != b
    ensures var h := [Connection(a, "", Local, at), Connection(b, "", Local, at), Connection(b, "", Local, at)];
      Keys(Run(h)) == [a, b] && ByRecency(h) == [b, a]
  {
    hide Recorded;
    var ca, cb := Connection(a, "", Local, at), Connection(b, "", Local, at);
    var ea, eb := Entry(a, "", at, [], Local), Entry(b, "", at, [], Local);
    FirstEntry(ea);
    AppendInPlace(ea, eb);
    RefreshInPlace(ea, eb);
    assert [ca, cb, cb][..2] == [ca, cb] && [ca, cb][..1] == [ca] && [ca][..0] == [];
    assert Run([ca]) == [ea];
    assert Run([ca, cb]) == [ea, eb];
    assert Run([ca, cb, cb]) == [ea, eb];
    LatestTwice(ca, cb);
  }

  lemma LatestTwice(ca: Connection, cb: Connection)
    requires ca.server != cb.server
    ensures ByRecency([ca, cb, cb]) == [cb.server, ca.server]
  {
    var a, b := ca.server, cb.server;
    assert [ca, cb, cb][..2] == [ca, cb] && [ca, cb][..1] == [ca] && [ca][..0] == [];
    assert [b, a][1..] == [a] && [a][1..] == [];
    assert Without([], b) == [];
    assert Without([a], b) == [a];
    assert Without([b, a], b) == [a];
    assert ByRecency([ca]) == [a];
    assert ByRecency([ca, cb]) == [b, a];
    assert ByRecency([ca, cb, cb]) == [b] + Without(ByRecency([ca, cb]), b);
  }
}
