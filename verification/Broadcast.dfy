/** The versioned latest-value broadcast of the WebSocket server, as atomic steps of any number of producer
    threads and one service thread. */
module Broadcast {
  import opened Machine
  import opened Histories

  const MAX_MSG_LEN: nat := 4096

  /** A C string: its characters before the terminating zero. */
  type CString = s: string | '\0' !in s

  /** What snprintf leaves in the broadcast buffer. */
  function Truncated(m: CString): CString {
    if |m| < MAX_MSG_LEN then m else m[..MAX_MSG_LEN - 1]
  }

  datatype Delivery = Delivery(version: nat, payload: string)

  /** A connected client: the version it holds, whether a writable callback is requested for it, the version
      in force when it connected, and what was written to it. */
  datatype Client = Client(last: nat, pending: bool, joined: nat, sent: seq<Delivery>)

  /** Where the service thread is: inside lws_service; with `current` just read; with the callbacks requested for it. */
  datatype Pc = Serving | Loaded(current: nat) | Storing(current: nat)

  datatype State = State(
    messages: seq<CString>,      // every broadcast so far; the version is their number
    buffer: string,              // broadcast_msg
    current: nat,                // current_msg_id
    serverLast: nat,             // server_last_msg_id
    pc: Pc,
    clients: map<nat, Client>)

  const START := State([], [], 0, 0, Serving, map[])

  datatype Action =
    | Send(message: CString)     // ws_broadcast_message, in any thread
    | Establish(client: nat)     // callbacks, inside lws_service
    | Write(client: nat)
    | Close(client: nat)
    | ReadVersion                // the loop after lws_service
    | Request
    | Store

  function RequestAll(clients: map<nat, Client>): map<nat, Client> {
    map c | c in clients :: clients[c].(pending := true)
  }

  /** Writing to a client that is behind sends it the buffer as the current version. */
  function Written(s: State, c: Client): Client {
    if c.last < s.current then
      c.(pending := false, last := s.current, sent := c.sent + [Delivery(s.current, s.buffer)])
    else c.(pending := false)
  }

  /** One atomic step; an action that is not possible changes nothing. */
  function Do(s: State, a: Action): State {
    match a
    case Send(m) => s.(messages := s.messages + [m], buffer := Truncated(m), current := s.current + 1)
    case Establish(c) =>
      if s.pc.Serving? && c !in s.clients
      then s.(clients := s.clients[c := Client(s.current, false, s.current, [])]) else s
    case Write(c) =>
      if s.pc.Serving? && c in s.clients && s.clients[c].pending
      then s.(clients := s.clients[c := Written(s, s.clients[c])]) else s
    case Close(c) => if s.pc.Serving? then s.(clients := s.clients - {c}) else s
    case ReadVersion => if s.pc.Serving? then s.(pc := Loaded(s.current)) else s
    case Request =>
      if !s.pc.Loaded? then s
      else if s.serverLast < s.pc.current then s.(clients := RequestAll(s.clients), pc := Storing(s.pc.current))
      else s.(pc := Serving)
    case Store => if s.pc.Storing? then s.(serverLast := s.pc.current, pc := Serving) else s
  }

  function Exec(s: State, actions: seq<Action>): State {
    if actions == [] then s else Do(Exec(s, Most(actions)), Last(actions))
  }

  // ---- safety ----

  /** What was written to a client: strictly increasing versions, none of them in force when it connected,
      each with the truncated message of that version. */
  ghost predicate Consistent(c: Client, messages: seq<CString>) {
    && (forall i :: 0 <= i < |c.sent| ==> c.joined < c.sent[i].version <= |messages|
                                          && c.sent[i].payload == Truncated(messages[c.sent[i].version - 1]))
    && (forall i, j :: 0 <= i < j < |c.sent| ==> c.sent[i].version < c.sent[j].version)
    && c.last == if c.sent == [] then c.joined else Last(c.sent).version
  }

  /** A client that is behind either has a writable callback requested, or the loop has yet to trigger. */
  ghost predicate WillHear(s: State, c: Client) {
    c.joined <= c.last <= s.current && (c.last < s.current ==> c.pending || s.serverLast < s.current)
  }

  ghost predicate Inv(s: State) {
    && s.current == |s.messages| && s.serverLast <= s.current
    && (s.messages != [] ==> s.buffer == Truncated(Last(s.messages)))
    && (s.pc.Loaded? ==> s.pc.current <= s.current)
    && (s.pc.Storing? ==>
          s.serverLast < s.pc.current <= s.current && forall c :: c in s.clients ==> s.clients[c].pending)
    && (forall c :: c in s.clients ==> WillHear(s, s.clients[c]) && Consistent(s.clients[c], s.messages))
  }

  lemma {:induction false} ConsistentLater(c: Client, messages: seq<CString>, m: CString)
    requires Consistent(c, messages)
    ensures Consistent(c, messages + [m])
  {
    forall i | 0 <= i < |c.sent| ensures c.sent[i].payload == Truncated((messages + [m])[c.sent[i].version - 1]) {
    }
  }

  lemma {:induction false} WrittenConsistent(s: State, c: Client)
    requires Inv(s) && Consistent(c, s.messages) && WillHear(s, c)
    ensures Consistent(Written(s, c), s.messages) && WillHear(s, Written(s, c))
  {
    hide Truncated;
    var r := Written(s, c);
    if c.last < s.current {
      assert c.sent != [] ==> Last(c.sent).version == c.last;
      forall i | 0 <= i < |c.sent| ensures c.sent[i].version <= c.last {
        assert c.sent[i].version <= Last(c.sent).version;
      }
    }
  }

  lemma {:induction false} NewIsConsistent(s: State)
    ensures Consistent(Client(s.current, false, s.current, []), s.messages)
  {
  }

  lemma {:induction false} PendingIsConsistent(c: Client, messages: seq<CString>)
    requires Consistent(c, messages)
    ensures Consistent(c.(pending := true), messages)
  {
  }

  lemma {:induction false} DoKeeps(s: State, a: Action)
    requires Inv(s)
    ensures Inv(Do(s, a))
  {
    hide Consistent, Truncated;
    match a
    case Send(m) =>
      forall c | c in s.clients ensures Consistent(s.clients[c], s.messages + [m]) {
        ConsistentLater(s.clients[c], s.messages, m);
      }
    case Establish(c) =>
      NewIsConsistent(s);
    case Write(c) =>
      if c in s.clients {
        WrittenConsistent(s, s.clients[c]);
      }
    case Request =>
      forall c | c in s.clients ensures Consistent(s.clients[c].(pending := true), s.messages) {
        PendingIsConsistent(s.clients[c], s.messages);
      }
    case _ =>
  }

  lemma {:induction false} ExecKeeps(s: State, actions: seq<Action>)
    requires Inv(s)
    ensures Inv(Exec(s, actions))
  {
    hide Inv, Do;
    if actions == [] {
    } else {
      ExecKeeps(s, Most(actions));
      DoKeeps(Exec(s, Most(actions)), Last(actions));
    }
  }

  /** No wake-up is lost: after any interleaving of producers with the service thread, a connected client that is behind
      has a writable callback requested or the server's own version is behind. */
  lemma {:induction false} NoLostWakeup(actions: seq<Action>, client: nat)
    requires client in Exec(START, actions).clients
    ensures var s := Exec(START, actions);
            s.clients[client].last < s.current ==> s.clients[client].pending || s.serverLast < s.current
  {
    ExecKeeps(START, actions);
  }

  // ---- what the actions say ----

  /** The messages broadcast by a run of actions. */
  function Sent(actions: seq<Action>): seq<CString> {
    if actions == [] then []
    else Sent(Most(actions)) + if Last(actions).Send? then [Last(actions).message] else []
  }

  /** Whether the last of the actions is an Establish that connects the client. */
  predicate Connects(actions: seq<Action>, client: nat) {
    && actions != [] && Last(actions) == Establish(client)
    && var s := Exec(START, Most(actions)); s.pc.Serving? && client !in s.clients
  }

  /** How many messages had been broadcast when the client connected for the last time. */
  function SentBefore(actions: seq<Action>, client: nat): nat {
    if actions == [] then 0
    else if Connects(actions, client) then |Sent(actions)|
    else SentBefore(Most(actions), client)
  }

  /** What one action does to one client: it connects by its Establish and disconnects by its Close, inside the service;
      it is written to by a requested Write of its own alone, and then the current version if it is behind; a callback
      is requested for it by a Request for a version that is news, and by nothing else. */
  lemma {:induction false} OneClient(s: State, a: Action, client: nat)
    ensures var t := Do(s, a);
            && (client in t.clients <==>
                  if client in s.clients then !(a == Close(client) && s.pc.Serving?)
                  else a == Establish(client) && s.pc.Serving?)
            && (client in t.clients && client !in s.clients ==>
                  t.clients[client].sent == [] && !t.clients[client].pending && t.clients[client].last == s.current)
            && (client in t.clients && client in s.clients ==>
                  var before, after := s.clients[client], t.clients[client];
                  if a == Write(client) && s.pc.Serving? && before.pending then
                    && !after.pending && after.last == Max(before.last, s.current)
                    && after.sent ==
                       before.sent + if before.last < s.current then [Delivery(s.current, s.buffer)] else []
                  else
                    && after.sent == before.sent && after.last == before.last
                    && (after.pending <==>
                          before.pending || (a == Request && s.pc.Loaded? && s.serverLast < s.pc.current)))
  {
  }

  lemma {:induction false} MessagesTold(actions: seq<Action>)
    ensures Exec(START, actions).messages == Sent(actions) && Exec(START, actions).current == |Sent(actions)|
  {
    if actions == [] {
    } else {
      MessagesTold(Most(actions));
    }
  }

  lemma {:induction false} StepOf(actions: seq<Action>)
    requires actions != []
    ensures Exec(START, actions) == Do(Exec(START, Most(actions)), Last(actions))
  {
    hide Do;
  }

  lemma {:induction false} JoinedTold(actions: seq<Action>, client: nat)
    requires client in Exec(START, actions).clients
    ensures Exec(START, actions).clients[client].joined == SentBefore(actions, client)
  {
    if actions == [] {
    } else {
      hide Sent;
      MessagesTold(Most(actions));
      MessagesTold(actions);
      hide Exec;
      StepOf(actions);
      if client in Exec(START, Most(actions)).clients {
        JoinedTold(Most(actions), client);
      }
    }
  }

  /** After any interleaving, the versions written to a client are strictly increasing, each payload is the message of
      its version cut to 4095 characters, and every one of these messages was broadcast after the client connected. */
  lemma {:induction false} ClientsSeeConsistentHistory(actions: seq<Action>, client: nat)
    requires client in Exec(START, actions).clients
    ensures var sent, messages := Exec(START, actions).clients[client].sent, Sent(actions);
            && (forall i, j :: 0 <= i < j < |sent| ==> sent[i].version < sent[j].version)
            && (forall i :: 0 <= i < |sent| ==>
                  && SentBefore(actions, client) < sent[i].version <= |messages|
                  && var m := messages[sent[i].version - 1];
                     sent[i].payload == if |m| <= 4095 then m else m[..4095])
  {
    hide Sent, SentBefore, Do;
    ExecKeeps(START, actions);
    MessagesTold(actions);
    JoinedTold(actions, client);
  }

  // ---- liveness ----

  /** How far the service loop is from having triggered the current version. */
  function Rank(s: State): nat {
    if s.serverLast >= s.current then 0
    else
      match s.pc
      case Storing(v) => if v == s.current then 1 else 4
      case Loaded(v) => if v == s.current then 2 else 5
      case Serving => 3
  }

  ghost function Waiting(s: State): set<nat> {
    set c | c in s.clients && s.clients[c].pending
  }

  /** Whether an action moves the service loop on. */
  predicate LoopMoves(s: State, a: Action) {
    match s.pc
    case Serving => a == ReadVersion
    case Loaded(_) => a == Request
    case Storing(_) => a == Store
  }

  /** Once broadcasts stop, no step raises the rank, every step of the loop lowers it until it is zero; a write takes
      its client off the waiting list, which nothing but a step that lowers the rank can lengthen. */
  lemma {:induction false} QuietStep(s: State, a: Action)
    requires Inv(s) && !a.Send?
    ensures var r := Do(s, a);
            && r.current == s.current && r.messages == s.messages && Rank(r) <= Rank(s)
            && (LoopMoves(s, a) && Rank(s) > 0 ==> Rank(r) < Rank(s))
            && (Rank(r) == Rank(s) ==> Waiting(r) <= Waiting(s))
            && (a.Write? && s.pc.Serving? && a.client in Waiting(s) ==> Waiting(r) < Waiting(s))
  {
    hide Consistent, WillHear;
    if a.Write? && s.pc.Serving? && a.client in Waiting(s) {
      assert a.client !in Waiting(Do(s, a));
    }
  }

  /** When the loop has triggered the current version and nobody waits, everybody is up to date. */
  lemma {:induction false} SettledIsDelivered(s: State)
    requires Inv(s) && Rank(s) == 0 && Waiting(s) == {}
    ensures forall c :: c in s.clients ==> s.clients[c].last == s.current
  {
    forall c | c in s.clients ensures s.clients[c].last == s.current {
      assert c !in Waiting(s);
      assert WillHear(s, s.clients[c]);
    }
  }

  /** An endless run. */
  function At(s: State, run: nat -> Action, n: nat): State {
    if n == 0 then s else Do(At(s, run, n - 1), run(n - 1))
  }

  ghost predicate LoopMovesAfter(s: State, run: nat -> Action, i: nat) {
    exists j: nat :: i <= j && LoopMoves(At(s, run, j), run(j))
  }

  /** The service thread keeps running, and a requested callback is not put off for ever. */
  ghost predicate LoopIsFair(s: State, run: nat -> Action) {
    forall i: nat :: LoopMovesAfter(s, run, i)
  }

  ghost predicate Served(s: State, run: nat -> Action, c: nat, j: nat) {
    c !in Waiting(At(s, run, j)) || (At(s, run, j).pc.Serving? && run(j) == Write(c))
  }

  ghost predicate ServedAfter(s: State, run: nat -> Action, c: nat, i: nat) {
    exists j: nat :: i <= j && Served(s, run, c, j)
  }

  ghost predicate ServiceIsFair(s: State, run: nat -> Action) {
    forall c: nat, i: nat :: ServedAfter(s, run, c, i)
  }

  ghost predicate UpToDate(s: State, c: nat) {
    c in s.clients ==> s.clients[c].last == s.current
  }

  ghost predicate UpToDateFrom(s: State, run: nat -> Action, c: nat, n: nat) {
    forall m: nat :: n <= m ==> UpToDate(At(s, run, m), c)
  }

  lemma {:induction false} QuietRun(s: State, run: nat -> Action, i: nat, n: nat)
    requires Inv(s) && (forall k: nat :: !run(k).Send?) && i <= n
    ensures Inv(At(s, run, n)) && Rank(At(s, run, n)) <= Rank(At(s, run, i))
    ensures At(s, run, n).current == At(s, run, i).current
    decreases n, n - i
  {
    hide Inv, Rank, Waiting, Do, LoopMoves;
    if i < n {
      QuietRun(s, run, i, n - 1);
      DoKeeps(At(s, run, n - 1), run(n - 1));
      QuietStep(At(s, run, n - 1), run(n - 1));
    } else if n > 0 {
      QuietRun(s, run, n - 1, n - 1);
      DoKeeps(At(s, run, n - 1), run(n - 1));
    }
  }

  lemma {:induction false} NextState(s: State, run: nat -> Action, n: nat)
    ensures At(s, run, n + 1) == Do(At(s, run, n), run(n))
  {
    hide Do;
  }

  lemma {:induction false} RankDrops(s: State, run: nat -> Action, i: nat) returns (n: nat)
    requires Inv(s) && (forall k: nat :: !run(k).Send?) && LoopMovesAfter(s, run, i) && Rank(At(s, run, i)) > 0
    ensures i < n && Rank(At(s, run, n)) < Rank(At(s, run, i))
  {
    hide Inv, Rank, Waiting, Do, LoopMoves, At;
    var j: nat :| i <= j && LoopMoves(At(s, run, j), run(j));
    QuietRun(s, run, i, j);
    NextState(s, run, j);
    QuietStep(At(s, run, j), run(j));
    n := j + 1;
  }

  lemma {:induction false} RankReachesZero(s: State, run: nat -> Action, i: nat) returns (n: nat)
    requires Inv(s) && (forall k: nat :: !run(k).Send?) && LoopIsFair(s, run)
    ensures i <= n && Rank(At(s, run, n)) == 0
    decreases Rank(At(s, run, i))
  {
    hide Inv, Rank, At, LoopMovesAfter;
    n := i;
    if Rank(At(s, run, i)) == 0 {
    } else {
      n := RankDrops(s, run, i);
      n := RankReachesZero(s, run, n);
    }
  }

  lemma {:induction false} StaysUpToDate(s: State, run: nat -> Action, c: nat, i: nat, n: nat)
    requires Inv(s) && (forall k: nat :: !run(k).Send?) && i <= n && UpToDate(At(s, run, i), c)
    ensures UpToDate(At(s, run, n), c)
    decreases n - i
  {
    if i == n {
    } else {
      StaysUpToDate(s, run, c, i, n - 1);
    }
  }

  lemma {:induction false} StepTowards(s: State, run: nat -> Action, c: nat, j: nat)
    requires !run(j).Send? && Inv(At(s, run, j)) && Rank(At(s, run, j)) == 0 && Served(s, run, c, j)
    ensures UpToDate(At(s, run, j + 1), c)
  {
    hide Consistent;
    var t := At(s, run, j);
    assert At(s, run, j + 1) == Do(t, run(j));
    if c in t.clients {
      assert WillHear(t, t.clients[c]);
      assert c in Waiting(t) <==> t.clients[c].pending;
    }
  }

  /** Once broadcasts have stopped, every client is brought to the last version and stays there, in every endless run
      in which the service thread keeps running and serves requested callbacks. */
  lemma {:induction false} EventuallyDelivered(s: State, run: nat -> Action, c: nat)
    requires Inv(s) && (forall k: nat :: !run(k).Send?) && LoopIsFair(s, run) && ServiceIsFair(s, run)
    ensures exists n: nat :: UpToDateFrom(s, run, c, n)
  {
    hide Inv, Rank, Waiting, Do, LoopMoves, UpToDate, LoopIsFair, Served;
    var i := RankReachesZero(s, run, 0);
    assert ServedAfter(s, run, c, i);
    var j: nat :| i <= j && Served(s, run, c, j);
    QuietRun(s, run, i, j);
    StepTowards(s, run, c, j);
    forall m: nat | j + 1 <= m ensures UpToDate(At(s, run, m), c) {
      StaysUpToDate(s, run, c, j + 1, m);
    }
    assert UpToDateFrom(s, run, c, j + 1);
  }
}
