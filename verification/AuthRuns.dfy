/** Whole runs of accounts and sessions: what holds after any sequence of calls. */
module AuthRuns {
  import opened Base
  import opened Octets
  import opened Sessions
  import opened Recovery
  import opened Auth
  import Crypto

  datatype Request =
    | Setup(username: string, password: string)
    | Login(username: string, password: string)
    | Recover(username: string, code: string)
    | Evict
    | Logout
    | ChangeUsername(username: string)
    | ChangePassword(password: string)
    | RegenerateRecoveryCode
    | AdminCreateUser(username: string, password: string, isAdmin: bool)
    | AdminSetUserStatus(userId: Id, status: string)
    | AdminDeleteUser(userId: Id)
    | AdminResetUser(userId: Id, password: string)

  /** A request, the session token it carries, and when it is made. */
  datatype Call = Call(request: Request, token: Id, now: int)

  /** What the caller learns: that the password of that account is now the one sent, or that its code is this one. */
  datatype Reply = Nothing | NewPassword(id: Id) | NewCode(id: Id, code: string)

  /** The request takes the user's data key away. */
  ghost predicate Rekeys(q: Request, id: Id) {
    (q.AdminDeleteUser? || q.AdminResetUser?) && q.userId == id
  }

  /** A session of that user was issued under that token. */
  ghost predicate IssuedTo(issued: map<Session, Bytes>, token: Id, id: Id) {
    exists x :: x in issued && x.token == token && x.userId == id
  }

  /** The call is aimed at the secrets of that account. */
  ghost predicate Aims(issued: map<Session, Bytes>, call: Call, id: Id) {
    || Rekeys(call.request, id)
    || ((call.request.ChangePassword? || call.request.RegenerateRecoveryCode?) && IssuedTo(issued, call.token, id))
  }

  /** The call carries the token of a live session that has not timed out. */
  ghost predicate Signed(m: Manager, call: Call)
    reads m, m.Repr()
    requires m.Valid()
  {
    && call.token in m.sessions && call.now - m.sessions[call.token].lastSeen <= m.idleTtl
    && call.now - m.sessions[call.token].createdAt <= m.absTtl
  }

  /** Every session issued so far stays on record with its key. */
  ghost predicate Keeps(before: map<Session, Bytes>, after: map<Session, Bytes>) {
    forall x :: x in before ==> x in after && after[x] == before[x]
  }

  /** What was issued stays on record, and the objects reachable since are new. */
  twostate predicate Extends(m: Manager)
    reads m, m.Repr()
  {
    Keeps(old(m.issued), m.issued) && fresh(m.Repr() - old(m.Repr()))
  }

  twostate lemma SameIssued(m: Manager)
    requires m.issued == old(m.issued)
    ensures Extends(m)
  {
  }

  lemma OneIssued(before: map<Session, Bytes>, after: map<Session, Bytes>, s: Session)
    requires s !in before && s in after && after == before[s := after[s]]
    ensures Keeps(before, after) && Objects(after) == Objects(before) + {s, s.dek}
  {
  }

  /** The account is still there, on the same data key. */
  ghost predicate SameKey(before: map<Id, Keyring>, after: map<Id, Keyring>, id: Id) {
    id in before ==> id in after && after[id].dek == before[id].dek
  }

  /** The account is still there, with the same password, code and data key. */
  ghost predicate SameRing(before: map<Id, Keyring>, after: map<Id, Keyring>, id: Id) {
    id in before ==> id in after && after[id] == before[id]
  }

  /** Every secret opens the one record to what it opens the other to. */
  ghost predicate SameAnswers(u: User, v: User) {
    forall secret ::
      OpenPassword(u, secret) == OpenPassword(v, secret) && OpenRecovery(u, secret) == OpenRecovery(v, secret)
  }

  lemma OthersKept(before: map<Id, Keyring>, after: map<Id, Keyring>, id: Id)
    requires after == before || after == before - {id} || (id in after && after == before[id := after[id]])
    ensures forall other :: other != id ==> SameRing(before, after, other)
  {
  }

  /** Finds the caller's session, as every authenticated route does first. */
  method Authenticate(s: Service, call: Call) returns (sess: Session?)
    requires s.Valid()
    modifies s.sessions, s.sessions.Repr()
    ensures s.Valid() && s.sessions.issued == old(s.sessions.issued)
    ensures s.users == old(s.users) && s.rings == old(s.rings)
    ensures sess != null <==> old(Signed(s.sessions, call))
    ensures sess != null ==>
      s.sessions.Live(sess) && sess == old(s.sessions.sessions)[call.token] && sess.token == call.token
  {
    ghost var live := s.sessions.sessions;
    sess := s.sessions.Get(call.token, call.now);
    s.FewerBacked(live, s.sessions.sessions);
  }

  /** Signing in, with the password or with the recovery code. */
  method SignIn(s: Service, q: Request, now: int)
    requires s.Valid() && (q.Login? || q.Recover?)
    modifies s.sessions, s.sessions.Repr()
    ensures s.Valid() && Extends(s.sessions)
  {
    ghost var issued := s.sessions.issued;
    var r;
    match q {
      case Login(username, password) =>
        r := s.Login(username, password, now);
      case Recover(username, code) =>
        r := s.Recover(username, code, now);
    }
    if r.Ok? { OneIssued(issued, s.sessions.issued, r.value); } else { SameIssued(s.sessions); }
  }

  /** A call without a session. */
  method ServeAnyone(s: Service, q: Request, now: int)
    requires s.Valid() && (q.Setup? || q.Login? || q.Recover? || q.Evict?)
    modifies s, s.sessions, s.sessions.Repr()
    ensures s.Valid() && Extends(s.sessions) && (old(s.users) != map[] ==> s.users != map[])
    ensures forall id :: SameRing(old(s.rings), s.rings, id)
  {
    match q {
      case Setup(username, password) =>
        var r := s.Setup(username, password);
        SameIssued(s.sessions);
      case Login(_, _) =>
        SignIn(s, q, now);
      case Recover(_, _) =>
        SignIn(s, q, now);
      case Evict =>
        ghost var live := s.sessions.sessions;
        s.sessions.EvictExpired(now);
        s.FewerBacked(live, s.sessions.sessions);
        SameIssued(s.sessions);
    }
  }

  /** A call on one's own account that leaves its secrets alone. */
  method ServeOwn(s: Service, sess: Session, q: Request)
    requires s.Valid() && s.sessions.Live(sess) && (q.Logout? || q.ChangeUsername?)
    modifies s, s.sessions, s.sessions.Repr()
    ensures s.Valid() && s.sessions.issued == old(s.sessions.issued) && (old(s.users) != map[] ==> s.users != map[])
    ensures s.rings == old(s.rings)
  {
    match q {
      case Logout =>
        s.Logout(sess);
      case ChangeUsername(username) =>
        var r := s.ChangeUsername(sess, username);
    }
  }

  /** The reply is true of what the accounts now hold. */
  ghost predicate Holds(reply: Reply, q: Request, rings: map<Id, Keyring>) {
    match reply
    case Nothing => true
    case NewPassword(id) => q.ChangePassword? && id in rings && rings[id].password == q.password
    case NewCode(id, code) => q.RegenerateRecoveryCode? && id in rings && rings[id].code == Some(Normalize(code))
  }

  /** A call that replaces a secret of one's own account. */
  method ServeSecrets(s: Service, sess: Session, q: Request) returns (reply: Reply)
    requires s.Valid() && s.sessions.Live(sess) && (q.ChangePassword? || q.RegenerateRecoveryCode?)
    modifies s, s.sessions, s.sessions.Repr()
    ensures s.Valid() && s.sessions.issued == old(s.sessions.issued) && s.users != map[]
    ensures SameKey(old(s.rings), s.rings, sess.userId)
    ensures forall id :: id != sess.userId ==> SameRing(old(s.rings), s.rings, id)
    ensures reply == Nothing <==> q.ChangePassword? && !ValidPassword(q.password)
    ensures Holds(reply, q, s.rings) && (reply != Nothing ==> reply.id == sess.userId)
  {
    ghost var rings := s.rings;
    s.LiveIsBacked(sess);
    match q {
      case ChangePassword(password) =>
        var r := s.ChangePassword(sess, password);
        reply := if r.Ok? then NewPassword(sess.userId) else Nothing;
      case RegenerateRecoveryCode =>
        var display := s.RegenerateRecoveryCode(sess);
        reply := NewCode(sess.userId, display);
    }
    OthersKept(rings, s.rings, sess.userId);
  }

  /** An administrator's call that touches no key. */
  method ServeAdmin(s: Service, actor: Session, q: Request)
    requires s.Valid() && s.sessions.Live(actor) && (q.AdminCreateUser? || q.AdminSetUserStatus?)
    modifies s, s.sessions, s.sessions.Repr()
    ensures s.Valid() && s.sessions.issued == old(s.sessions.issued) && s.users != map[]
    ensures forall id :: SameRing(old(s.rings), s.rings, id)
  {
    s.LiveIsBacked(actor);
    match q {
      case AdminCreateUser(username, password, isAdmin) =>
        var r := s.AdminCreateUser(actor, username, password, isAdmin);
      case AdminSetUserStatus(userId, status) =>
        var r := s.AdminSetUserStatus(actor, userId, status);
    }
  }

  /** An administrator's call that takes a key away. */
  method ServeRekeying(s: Service, actor: Session, q: Request)
    requires s.Valid() && s.sessions.Live(actor) && (q.AdminDeleteUser? || q.AdminResetUser?)
    modifies s, s.sessions, s.sessions.Repr()
    ensures s.Valid() && s.sessions.issued == old(s.sessions.issued) && s.users != map[]
    ensures forall id :: id != q.userId ==> SameRing(old(s.rings), s.rings, id)
  {
    ghost var rings := s.rings;
    s.LiveIsBacked(actor);
    match q {
      case AdminDeleteUser(userId) =>
        var r := s.AdminDeleteUser(actor, userId);
      case AdminResetUser(userId, password) =>
        var drawn := Crypto.RandomBytes(KEY);
        var r := s.AdminResetUser(actor, userId, password, drawn);
    }
    OthersKept(rings, s.rings, q.userId);
  }

  /** What one call may do to the keyrings: data keys go only by reset or delete, and secrets change only where the
      call is aimed. */
  ghost predicate Effect(
    issued: map<Session, Bytes>, call: Call, before: map<Id, Keyring>, after: map<Id, Keyring>)
  {
    && (forall id :: !Rekeys(call.request, id) ==> SameKey(before, after, id))
    && (forall id :: !Aims(issued, call, id) ==> SameRing(before, after, id))
  }

  lemma EffectNone(issued: map<Session, Bytes>, call: Call, before: map<Id, Keyring>, after: map<Id, Keyring>)
    requires forall id :: SameRing(before, after, id)
    ensures Effect(issued, call, before, after)
  {
    forall id ensures SameKey(before, after, id) {
      assert SameRing(before, after, id);
    }
  }

  lemma EffectOn(issued: map<Session, Bytes>, call: Call, before: map<Id, Keyring>, after: map<Id, Keyring>, on: Id)
    requires Aims(issued, call, on) && (!Rekeys(call.request, on) ==> SameKey(before, after, on))
    requires forall id :: id != on ==> SameRing(before, after, id)
    ensures Effect(issued, call, before, after)
  {
    forall id | !Rekeys(call.request, id) ensures SameKey(before, after, id) {
      assert id != on ==> SameRing(before, after, id);
    }
  }

  /** One call: what it may change, and when it changes a secret as asked. */
  method Serve(s: Service, call: Call) returns (reply: Reply)
    requires s.Valid()
    modifies s, s.sessions, s.sessions.Repr()
    ensures s.Valid() && Extends(s.sessions) && (old(s.users) != map[] ==> s.users != map[])
    ensures Effect(s.sessions.issued, call, old(s.rings), s.rings)
    ensures Holds(reply, call.request, s.rings)
    ensures reply.NewPassword? <==>
      call.request.ChangePassword? && ValidPassword(call.request.password) && old(Signed(s.sessions, call))
    ensures reply.NewCode? <==> call.request.RegenerateRecoveryCode? && old(Signed(s.sessions, call))
    ensures reply != Nothing ==> reply.id == old(s.sessions.sessions[call.token]).userId
  {
    ghost var rings := s.rings;
    var q := call.request;
    reply := Nothing;
    if q.Setup? || q.Login? || q.Recover? || q.Evict? {
      ServeAnyone(s, q, call.now);
      EffectNone(s.sessions.issued, call, rings, s.rings);
      return;
    }
    var sess := Authenticate(s, call);
    if sess == null {
      EffectNone(s.sessions.issued, call, rings, s.rings);
    } else if q.Logout? || q.ChangeUsername? {
      ServeOwn(s, sess, q);
      EffectNone(s.sessions.issued, call, rings, s.rings);
    } else if q.ChangePassword? || q.RegenerateRecoveryCode? {
      assert IssuedTo(s.sessions.issued, call.token, sess.userId);
      reply := ServeSecrets(s, sess, q);
      EffectOn(s.sessions.issued, call, rings, s.rings, sess.userId);
    } else if q.AdminCreateUser? || q.AdminSetUserStatus? {
      ServeAdmin(s, sess, q);
      EffectNone(s.sessions.issued, call, rings, s.rings);
    } else {
      ServeRekeying(s, sess, q);
      EffectOn(s.sessions.issued, call, rings, s.rings, q.userId);
    }
    SameIssued(s.sessions);
  }

  // --- runs ---

  /** None of the calls takes the account's key. */
  ghost predicate Spared(calls: seq<Call>, id: Id) {
    forall call :: call in calls ==> !Rekeys(call.request, id)
  }

  /** None of the calls is aimed at the account's secrets. */
  ghost predicate Untargeted(issued: map<Session, Bytes>, calls: seq<Call>, id: Id) {
    forall call :: call in calls ==> !Aims(issued, call, id)
  }

  lemma OneMoreCall(
    before: map<Session, Bytes>, issued: map<Session, Bytes>, calls: seq<Call>, k: nat,
    rings: map<Id, Keyring>, mid: map<Id, Keyring>, after: map<Id, Keyring>)
    requires k < |calls| && Keeps(before, issued)
    requires forall id :: Spared(calls[..k], id) ==> SameKey(rings, mid, id)
    requires forall id :: Untargeted(before, calls[..k], id) ==> SameRing(rings, mid, id)
    requires Effect(issued, calls[k], mid, after)
    ensures forall id :: Spared(calls[..k + 1], id) ==> SameKey(rings, after, id)
    ensures forall id :: Untargeted(issued, calls[..k + 1], id) ==> SameRing(rings, after, id)
  {
    assert calls[k] in calls[..k + 1] && forall call :: call in calls[..k] ==> call in calls[..k + 1];
    forall id | Spared(calls[..k + 1], id) ensures SameKey(rings, after, id) {
      assert Spared(calls[..k], id) && !Rekeys(calls[k].request, id);
      assert SameKey(rings, mid, id) && SameKey(mid, after, id);
    }
    forall id | Untargeted(issued, calls[..k + 1], id) ensures SameRing(rings, after, id) {
      forall call | call in calls[..k] ensures !Aims(before, call, id) {
        assert !Aims(issued, call, id);
      }
      assert Untargeted(before, calls[..k], id) && !Aims(issued, calls[k], id);
      assert SameRing(rings, mid, id) && SameRing(mid, after, id);
    }
  }

  lemma Answers(u: User, k: Keyring)
    requires Envelope(u, k)
    ensures forall secret :: OpenPassword(u, secret).Some? <==> secret == k.password
    ensures forall secret :: OpenRecovery(u, secret).Some? <==> k.code == Some(Normalize(secret))
  {
    forall secret ensures OpenPassword(u, secret).Some? <==> secret == k.password {
      OnlyLatestOpens(u, k, secret);
    }
    forall secret ensures OpenRecovery(u, secret).Some? <==> k.code == Some(Normalize(secret)) {
      OnlyLatestOpens(u, k, secret);
    }
  }

  /** Two records for one keyring answer alike. */
  lemma AnswersAlike(u: User, v: User, k: Keyring)
    requires Envelope(u, k) && Envelope(v, k)
    ensures SameAnswers(u, v)
  {
    forall secret ensures OpenPassword(u, secret) == OpenPassword(v, secret) {
      OnlyLatestOpens(u, k, secret);
      OnlyLatestOpens(v, k, secret);
    }
    forall secret ensures OpenRecovery(u, secret) == OpenRecovery(v, secret) {
      OnlyLatestOpens(u, k, secret);
      OnlyLatestOpens(v, k, secret);
    }
  }

  /**
   * Over any run, a user's data key changes only when the account is reset or deleted; while no call is aimed at an
   * account's secrets, every password and every code is answered as before; once there is an account there is always an
   * active administrator; and every session ever issued, before the run or in it, either is live, on exactly the key it
   * was issued with, which is its user's, or its key bytes are all zero.
   */
  method ServeAll(s: Service, calls: seq<Call>)
    requires s.Valid()
    modifies s, s.sessions, s.sessions.Repr()
    ensures s.Valid() && Extends(s.sessions)
    ensures forall id :: Spared(calls, id) ==> SameKey(old(s.rings), s.rings, id)
    ensures forall id :: Untargeted(s.sessions.issued, calls, id) ==> SameRing(old(s.rings), s.rings, id)
    ensures forall id :: Untargeted(s.sessions.issued, calls, id) && id in old(s.users) ==>
      id in s.users && SameAnswers(old(s.users)[id], s.users[id])
    ensures old(s.users) != map[] ==>
      exists id :: id in s.users && s.users[id].isAdmin && s.users[id].status == ACTIVE
    ensures forall x :: x in s.sessions.issued ==>
      if s.sessions.Live(x) then x.userId in s.rings && x.dek[..] == s.sessions.issued[x] == s.rings[x.userId].dek
      else Zeroed(x.dek)
  {
    ghost var users, rings := s.users, s.rings;
    for k := 0 to |calls|
      invariant s.Valid() && Extends(s.sessions) && (old(s.users) != map[] ==> s.users != map[])
      invariant forall id :: Spared(calls[..k], id) ==> SameKey(rings, s.rings, id)
      invariant forall id :: Untargeted(s.sessions.issued, calls[..k], id) ==> SameRing(rings, s.rings, id)
    {
      ghost var mid, before := s.rings, s.sessions.issued;
      var reply := Serve(s, calls[k]);
      OneMoreCall(before, s.sessions.issued, calls, k, rings, mid, s.rings);
    }
    assert calls[..|calls|] == calls;
    forall id | Untargeted(s.sessions.issued, calls, id) && id in users
      ensures id in s.users && SameAnswers(users[id], s.users[id])
    {
      assert SameRing(rings, s.rings, id);
      assert Envelope(users[id], rings[id]) && Envelope(s.users[id], s.rings[id]);
      AnswersAlike(users[id], s.users[id], rings[id]);
    }
    forall x | x in s.sessions.issued && s.sessions.Live(x)
      ensures x.userId in s.rings && x.dek[..] == s.sessions.issued[x] == s.rings[x.userId].dek
    {
      s.LiveIsBacked(x);
    }
  }

  /**
   * Superseded secrets stay superseded: after a call that changed a password, or drew a new code, and any run of calls
   * not aimed at that account's secrets, the new secret opens the record, and no other password, or code, does.
   */
  method ChangeAndServe(s: Service, call: Call, later: seq<Call>) returns (reply: Reply)
    requires s.Valid()
    modifies s, s.sessions, s.sessions.Repr()
    ensures s.Valid() && Extends(s.sessions)
    ensures reply.NewPassword? <==>
      call.request.ChangePassword? && ValidPassword(call.request.password) && old(Signed(s.sessions, call))
    ensures reply.NewCode? <==> call.request.RegenerateRecoveryCode? && old(Signed(s.sessions, call))
    ensures reply != Nothing ==> reply.id == old(s.sessions.sessions[call.token]).userId
    ensures reply != Nothing && Untargeted(s.sessions.issued, later, reply.id) ==> reply.id in s.users
    ensures reply.NewPassword? && Untargeted(s.sessions.issued, later, reply.id) ==>
      forall secret :: OpenPassword(s.users[reply.id], secret).Some? <==> secret == call.request.password
    ensures reply.NewCode? && Untargeted(s.sessions.issued, later, reply.id) ==>
      forall code :: OpenRecovery(s.users[reply.id], code).Some? <==> Normalize(code) == Normalize(reply.code)
  {
    reply := Serve(s, call);
    ghost var rings, reached := s.rings, s.sessions.Repr();
    ServeAll(s, later);
    assert fresh(s.sessions.Repr() - reached) && fresh(reached - old(s.sessions.Repr()));
    if reply != Nothing && Untargeted(s.sessions.issued, later, reply.id) {
      assert s.rings[reply.id] == rings[reply.id] && Envelope(s.users[reply.id], s.rings[reply.id]) by {
        assert SameRing(rings, s.rings, reply.id);
      }
      Answers(s.users[reply.id], s.rings[reply.id]);
    }
  }
}
