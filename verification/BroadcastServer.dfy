/** The broadcast server as an object: a fixed character buffer, the version counters, and the connected clients.
    Each method is one critical section or one step of the service loop; other threads run between them. */
module BroadcastServer {
  import opened Machine
  import opened Broadcast

  /** The C string in a buffer: the characters before its first zero. */
  function Text(b: seq<char>): (t: string)
    ensures |t| <= |b| && t == b[..|t|] && '\0' !in t
    ensures |t| < |b| ==> b[|t|] == '\0'
  {
    if b == [] || b[0] == '\0' then [] else
      var t := Text(b[1..]);
      assert b[..|t| + 1] == [b[0]] + b[1..][..|t|];
      [b[0]] + t
  }

  /** A buffer's text is known from its first zero. */
  lemma {:induction false} TextIs(b: seq<char>, t: string)
    requires '\0' !in t && t + ['\0'] <= b
    ensures Text(b) == t
  {
    assert b[|t|] == (t + ['\0'])[|t|];
    if t == [] {
    } else {
      assert b[0] == t[0] && t[0] in t;
      assert (t[1..] + ['\0']) == (t + ['\0'])[1..];
      TextIs(b[1..], t[1..]);
    }
  }

  /** What copying a message into the buffer leaves as its text. */
  lemma {:induction false} TruncatedText(b: seq<char>, message: CString, n: nat)
    requires n < |b| == MAX_MSG_LEN && n <= |message| && (n == |message| || n == MAX_MSG_LEN - 1)
    requires b[..n] == message[..n] && b[n] == '\0'
    ensures Text(b) == Truncated(message)
  {
    hide Text;
    assert message[..n] == Truncated(message);
    assert message[..n] + ['\0'] == b[..n + 1];
    TextIs(b, message[..n]);
  }

  class Server {
    const broadcastMsg: array<char>
    var currentMsgId: nat
    var serverLastMsgId: nat
    var pc: Pc
    var clients: map<nat, Client>
    ghost var messages: seq<CString>

    ghost predicate Valid()
      reads broadcastMsg
    {
      broadcastMsg.Length == MAX_MSG_LEN && |Text(broadcastMsg[..])| < MAX_MSG_LEN
    }

    ghost function State(): Broadcast.State
      reads this, broadcastMsg
    {
      Broadcast.State(messages, Text(broadcastMsg[..]), currentMsgId, serverLastMsgId, pc, clients)
    }

    constructor ()
      ensures Valid() && fresh(broadcastMsg) && State() == START
    {
      broadcastMsg := new char[MAX_MSG_LEN](i => '\0');
      currentMsgId, serverLastMsgId, pc, clients, messages := 0, 0, Serving, map[], [];
    }

    /** ws_broadcast_message: snprintf into the buffer and a new version, under the lock. */
    method Send(message: CString)
      requires Valid()
      modifies this`currentMsgId, this`messages, broadcastMsg
      ensures Valid() && State() == Do(old(State()), Action.Send(message))
    {
      var n := 0;
      while n < |message| && n < MAX_MSG_LEN - 1
        invariant n <= |message| && n < MAX_MSG_LEN
        invariant broadcastMsg[..n] == message[..n]
        modifies broadcastMsg
      {
        broadcastMsg[n] := message[n];
        n := n + 1;
      }
      broadcastMsg[n] := '\0';
      currentMsgId := currentMsgId + 1;
      messages := messages + [message];
      TruncatedText(broadcastMsg[..], message, n);
    }

    /** LWS_CALLBACK_ESTABLISHED: a client starts caught up. */
    method Establish(client: nat)
      requires Valid() && pc.Serving? && client !in clients
      modifies this`clients
      ensures Valid() && State() == Do(old(State()), Action.Establish(client))
    {
      clients := clients[client := Client(currentMsgId, false, currentMsgId, [])];
    }

    /** LWS_CALLBACK_SERVER_WRITEABLE: a client that is behind is sent the text of the buffer. */
    method Write(client: nat)
      requires Valid() && pc.Serving? && client in clients && clients[client].pending
      modifies this`clients
      ensures Valid() && State() == Do(old(State()), Action.Write(client))
    {
      var pss := clients[client].(pending := false);
      if pss.last < currentMsgId {
        ghost var text := Text(broadcastMsg[..]);
        var length := 0;
        while broadcastMsg[length] != '\0'
          invariant length <= |text|
          decreases MAX_MSG_LEN - length
        {
          length := length + 1;
        }
        assert broadcastMsg[..length] == text;
        pss := pss.(sent := pss.sent + [Delivery(currentMsgId, broadcastMsg[..length])], last := currentMsgId);
      }
      clients := clients[client := pss];
    }

    method Close(client: nat)
      requires Valid() && pc.Serving?
      modifies this`clients
      ensures Valid() && State() == Do(old(State()), Action.Close(client))
    {
      clients := clients - {client};
    }

    /** The loop reads the version under the lock after lws_service returns. */
    method ReadVersion()
      requires Valid() && pc.Serving?
      modifies this`pc
      ensures Valid() && State() == Do(old(State()), Action.ReadVersion)
    {
      pc := Loaded(currentMsgId);
    }

    /** The loop requests a writable callback for every client if the version it read is news to it. */
    method Request()
      requires Valid() && pc.Loaded?
      modifies this`pc, this`clients
      ensures Valid() && State() == Do(old(State()), Action.Request)
    {
      if serverLastMsgId < pc.current {
        clients := map c | c in clients :: clients[c].(pending := true);
        pc := Storing(pc.current);
      } else {
        pc := Serving;
      }
    }

    /** The loop remembers the version it read, not the one in force by now. */
    method Store()
      requires Valid() && pc.Storing?
      modifies this`pc, this`serverLastMsgId
      ensures Valid() && State() == Do(old(State()), Action.Store)
    {
      serverLastMsgId := pc.current;
      pc := Serving;
    }
  }
}
