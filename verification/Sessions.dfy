/** Live sessions: the only place where a data key is held in the clear. */
module Sessions {
  import opened Base
  import opened Octets

  ghost predicate Zeroed(b: array<byte>)
    reads b
  {
    forall k :: 0 <= k < b.Length ==> b[k] == 0
  }

  /** Overwrites key material in place. */
  method Zero(b: array<byte>)
    modifies b
    ensures Zeroed(b)
  {
    var i := 0;
    while i < b.Length
      invariant 0 <= i <= b.Length
      invariant forall k :: 0 <= k < i ==> b[k] == 0
    {
      b[i] := 0;
      i := i + 1;
    }
  }

  method Copy(b: array<byte>) returns (c: array<byte>)
    ensures fresh(c) && c[..] == b[..]
  {
    c := new byte[b.Length];
    var i := 0;
    while i < b.Length
      invariant 0 <= i <= b.Length
      invariant c[..i] == b[..i]
    {
      c[i] := b[i];
      i := i + 1;
    }
  }

  class Session {
    const token: Id
    const userId: Id
    const isAdmin: bool
    const dek: array<byte>
    const createdAt: int
    var username: string
    var mustChangePassword: bool
    var lastSeen: int

    constructor (token: Id, userId: Id, username: string, isAdmin: bool, mustChange: bool, dek: array<byte>, now: int)
      ensures this.token == token && this.userId == userId && this.username == username && this.isAdmin == isAdmin
      ensures mustChangePassword == mustChange && this.dek == dek && createdAt == now && lastSeen == now
    {
      this.token, this.userId, this.username, this.isAdmin := token, userId, username, isAdmin;
      this.mustChangePassword, this.dek, this.createdAt, this.lastSeen := mustChange, dek, now, now;
    }

    /** A copy of the data key, for one operation to use and scrub. */
    method DEK() returns (cp: array<byte>)
      ensures fresh(cp) && cp[..] == dek[..]
    {
      cp := Copy(dek);
    }
  }

  /** The sessions of everybody else. */
  ghost function SessionsWithout(live: map<Id, Session>, userId: Id): map<Id, Session> {
    map t | t in live && live[t].userId != userId :: live[t]
  }

  /** The issued sessions and their keys. */
  ghost function Objects(issued: map<Session, Bytes>): set<object> {
    issued.Keys + set s | s in issued :: s.dek
  }

  class Manager {
    const idleTtl: int
    const absTtl: int
    var sessions: map<Id, Session>
    /** Every session this manager ever created, with the key it was given. */
    ghost var issued: map<Session, Bytes>

    ghost function Repr(): set<object>
      reads this
    {
      Objects(issued)
    }

    ghost predicate Live(s: Session)
      reads this
    {
      s.token in sessions && sessions[s.token] == s
    }

    /**
     * The map is keyed by token and holds sessions issued here; no two sessions share a key array; and every session
     * ever issued either is live with exactly the key it was created with, or its key bytes are all zero.
     */
    ghost predicate Valid()
      reads this, Repr()
    {
      && (forall t :: t in sessions ==> sessions[t] in issued && sessions[t].token == t)
      && (forall s, r {:trigger s.dek, r.dek} :: s in issued && r in issued && s.dek == r.dek ==> s == r)
      && (forall s :: s in issued ==> if Live(s) then s.dek[..] == issued[s] else Zeroed(s.dek))
    }

    constructor (idleTtl: int, absTtl: int)
      ensures Valid() && sessions == map[] && issued == map[]
      ensures this.idleTtl == idleTtl && this.absTtl == absTtl
    {
      this.idleTtl, this.absTtl := idleTtl, absTtl;
      sessions, issued := map[], map[];
    }

    predicate Expired(s: Session, now: int)
      reads s`lastSeen
    {
      now - s.lastSeen > idleTtl || now - s.createdAt > absTtl
    }

    ghost function Keys(): set<object>
      reads this
    {
      set s | s in issued :: s.dek
    }

    /** Every session that left the map has its key scrubbed; none was forgotten, and none was issued. */
    twostate predicate Scrubbed()
      reads this, Repr()
    {
      && issued == old(issued)
      && forall t :: t in old(sessions) && t !in sessions ==> old(sessions)[t] in issued && Zeroed(old(sessions)[t].dek)
    }

    /** Enters a new session in the map. */
    method Register(s: Session, ghost key: Bytes)
      requires Valid() && s !in issued && s.dek !in Keys() && s.token !in sessions && s.dek[..] == key
      modifies `sessions, `issued
      ensures Valid() && sessions == old(sessions)[s.token := s] && issued == old(issued)[s := key]
    {
      sessions := sessions[s.token := s];
      issued := issued[s := key];
    }

    /** Starts a session on a copy of the key: the caller may scrub its own. */
    method Create(userId: Id, username: string, isAdmin: bool, mustChange: bool, dek: array<byte>, now: int)
      returns (s: Session)
      requires Valid()
      modifies `sessions, `issued
      ensures Valid()
      ensures fresh(s) && fresh(s.dek) && s.userId == userId && s.username == username && s.isAdmin == isAdmin
      ensures s.mustChangePassword == mustChange && s.createdAt == s.lastSeen == now
      ensures s.token !in old(sessions) && sessions == old(sessions)[s.token := s]
      ensures s !in old(issued) && issued == old(issued)[s := dek[..]]
    {
      var dekCopy := Copy(dek);
      var token := NewId(sessions.Keys);
      s := new Session(token, userId, username, isAdmin, mustChange, dekCopy, now);
      Register(s, dek[..]);
    }

    /** Scrubs a session's key and drops it from the map. */
    method End(token: Id)
      requires Valid() && token in sessions
      modifies `sessions, sessions[token].dek
      ensures Valid() && sessions == old(sessions) - {token} && Scrubbed()
    {
      var s := sessions[token];
      Zero(s.dek);
      sessions := sessions - {token};
    }

    /** The session of a token, if there is one. */
    ghost function Held(token: Id): set<Session>
      reads this
    {
      if token in sessions then {sessions[token]} else {}
    }

    /** The session of a token, its idle timer restarted; expired sessions are scrubbed instead of returned. */
    method Get(token: Id, now: int) returns (s: Session?)
      requires Valid()
      modifies `sessions, Held(token)`lastSeen, set s | s in Held(token) :: s.dek
      ensures Valid()
      ensures s != null <==>
        && token in old(sessions) && now - old(sessions[token].lastSeen) <= idleTtl
        && now - old(sessions)[token].createdAt <= absTtl
      ensures s != null ==>
        s == old(sessions)[token] && s.lastSeen == now && sessions == old(sessions)
      ensures s == null ==> sessions == old(sessions) - {token}
      ensures Scrubbed()
    {
      if token !in sessions { return null; }
      s := sessions[token];
      if Expired(s, now) {
        End(token);
        return null;
      }
      s.lastSeen := now;
    }

    method SetMustChangePassword(token: Id, v: bool)
      requires Valid()
      modifies Held(token)`mustChangePassword
      ensures Valid()
      ensures token in sessions ==> sessions[token].mustChangePassword == v
    {
      if token in sessions { sessions[token].mustChangePassword := v; }
    }

    method SetUsername(token: Id, username: string)
      requires Valid()
      modifies Held(token)`username
      ensures Valid()
      ensures token in sessions ==> sessions[token].username == username
    {
      if token in sessions { sessions[token].username := username; }
    }

    method Delete(token: Id)
      requires Valid()
      modifies `sessions, set s | s in Held(token) :: s.dek
      ensures Valid() && sessions == old(sessions) - {token} && Scrubbed()
    {
      if token in sessions { End(token); }
    }

    /** One turn of a sweep over the map: the session ends, or stays. */
    method Visit(token: Id, ends: bool)
      requires Valid() && token in sessions
      modifies `sessions, sessions[token].dek
      ensures Valid() && sessions == if ends then old(sessions) - {token} else old(sessions)
    {
      if ends { End(token); }
    }

    /** Ends all sessions of a user, when the account is disabled, deleted or reset. */
    method DeleteByUser(userId: Id)
      requires Valid()
      modifies `sessions, Keys()
      ensures Valid() && Scrubbed()
      ensures sessions == SessionsWithout(old(sessions), userId)
      ensures forall t :: t in old(sessions) ==> (t in sessions <==> old(sessions)[t].userId != userId)
      ensures forall t :: t in sessions ==> t in old(sessions) && sessions[t] == old(sessions)[t]
    {
      ghost var all := sessions;
      ghost var ends := set t | t in all && all[t].userId == userId;
      var todo := sessions.Keys;
      SweepStarts(all, ends);
      while todo != {}
        invariant Valid() && todo <= all.Keys && sessions == all - (ends - todo)
        decreases todo
      {
        var token :| token in todo;
        NextKey(all, ends, todo, token);
        Visit(token, sessions[token].userId == userId);
        todo := todo - {token};
      }
      SweepEnds(all, ends);
    }

    /** The janitor's pass over the map. */
    method EvictExpired(now: int)
      requires Valid()
      modifies `sessions, Keys()
      ensures Valid() && Scrubbed()
      ensures forall t :: t in sessions <==>
        && t in old(sessions) && now - old(sessions[t].lastSeen) <= idleTtl
        && now - old(sessions)[t].createdAt <= absTtl
      ensures forall t :: t in sessions ==> sessions[t] == old(sessions)[t]
    {
      ghost var all := sessions;
      ghost var ends := set t | t in all && (now - all[t].lastSeen > idleTtl || now - all[t].createdAt > absTtl);
      var todo := sessions.Keys;
      SweepStarts(all, ends);
      while todo != {}
        invariant Valid() && todo <= all.Keys && sessions == all - (ends - todo)
        decreases todo
      {
        var token :| token in todo;
        NextKey(all, ends, todo, token);
        var expired := Expired(sessions[token], now);
        assert expired <==> token in ends;
        Visit(token, expired);
        todo := todo - {token};
      }
      SweepEnds(all, ends);
    }

    /** At shutdown: no session is left, and no key either. */
    method PurgeAll()
      requires Valid()
      modifies `sessions, Keys()
      ensures Valid() && sessions == map[]
      ensures forall s :: s in issued ==> Zeroed(s.dek)
    {
      var todo := sessions.Keys;
      while todo != {}
        invariant Valid() && sessions.Keys == todo
        decreases todo
      {
        var token :| token in todo;
        todo := todo - {token};
        End(token);
      }
    }
  }
}
