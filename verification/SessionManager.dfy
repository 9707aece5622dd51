/** The plain in-memory session store. */
module SessionManager {
  import opened Messages
  import SessionLog

  /** What one session holds. */
  datatype Contents = Contents(messages: seq<Message>, summary: string)

  /** The whole store as a value. */
  type Sessions = map<string, Contents>

  function KeepLast(ms: seq<Message>, keepLast: int): seq<Message> {
    if keepLast <= 0 then [] else if |ms| <= keepLast then ms else ms[|ms| - keepLast..]
  }

  /** One operation on the store; `Save` only persists. Set and truncate operations on a
      session that does not exist do nothing. */
  function Step(m: Sessions, op: SessionLog.Op): Sessions {
    var k := op.key;
    match op
    case Add(_, msg) =>
      var c := if k in m then m[k] else Contents([], "");
      m[k := c.(messages := c.messages + [msg])]
    case SetSummary(_, summary) => if k in m then m[k := m[k].(summary := summary)] else m
    case SetHistory(_, history) => if k in m then m[k := m[k].(messages := history)] else m
    case Truncate(_, keepLast) => if k in m then m[k := m[k].(messages := KeepLast(m[k].messages, keepLast))] else m
    case Save(_) => m
  }

  function History(m: Sessions, key: string): seq<Message> {
    if key in m then m[key].messages else []
  }

  function Summary(m: Sessions, key: string): string {
    if key in m then m[key].summary else ""
  }

  class Session {
    const key: string
    var messages: seq<Message>
    var summary: string

    constructor (key: string)
      ensures this.key == key && messages == [] && summary == ""
    {
      this.key, messages, summary := key, [], "";
    }
  }

  class SessionManager {
    var sessions: map<string, Session>

    /** Each key has its own session object. */
    ghost predicate Valid()
      reads this, sessions.Values
    {
      && (forall k <- sessions :: sessions[k].key == k)
      && forall k, k' :: k in sessions && k' in sessions && k != k' ==> sessions[k] != sessions[k']
    }

    ghost function View(): Sessions
      reads this, sessions.Values
    {
      map k | k in sessions :: Contents(sessions[k].messages, sessions[k].summary)
    }

    constructor ()
      ensures Valid() && View() == map[] && sessions == map[]
    {
      sessions := map[];
    }

    method AddFullMessage(key: string, msg: Message)
      requires Valid()
      modifies this, sessions.Values
      ensures Valid() && View() == Step(old(View()), SessionLog.Add(key, msg))
      ensures fresh(sessions.Values - old(sessions.Values))
    {
      if key !in sessions {
        var session := new Session(key);
        ghost var before := sessions;
        sessions := sessions[key := session];
        assert forall k <- before :: sessions[k] == before[k];
      }
      assert sessions[key] in sessions.Values;
      sessions[key].messages := sessions[key].messages + [msg];
    }

    method GetHistory(key: string) returns (history: seq<Message>)
      ensures history == History(View(), key)
    {
      if key !in sessions {
        return [];
      }
      history := sessions[key].messages;
    }

    method GetSummary(key: string) returns (summary: string)
      ensures summary == Summary(View(), key)
    {
      if key !in sessions {
        return "";
      }
      summary := sessions[key].summary;
    }

    method SetSummary(key: string, summary: string)
      requires Valid()
      modifies sessions.Values
      ensures Valid() && View() == Step(old(View()), SessionLog.SetSummary(key, summary))
    {
      if key in sessions {
        assert sessions[key] in sessions.Values;
        sessions[key].summary := summary;
      }
    }

    method TruncateHistory(key: string, keepLast: int)
      requires Valid()
      modifies sessions.Values
      ensures Valid() && View() == Step(old(View()), SessionLog.Truncate(key, keepLast))
    {
      if key !in sessions {
        return;
      }
      var session := sessions[key];
      assert session in sessions.Values;
      if keepLast <= 0 {
        session.messages := [];
        return;
      }
      if |session.messages| <= keepLast {
        assert View() == View()[key := View()[key]];
        return;
      }
      session.messages := session.messages[|session.messages| - keepLast..];
    }

    method SetHistory(key: string, history: seq<Message>)
      requires Valid()
      modifies sessions.Values
      ensures Valid() && View() == Step(old(View()), SessionLog.SetHistory(key, history))
    {
      if key in sessions {
        assert sessions[key] in sessions.Values;
        sessions[key].messages := history;
      }
    }
  }
}
