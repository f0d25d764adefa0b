/** Accounts, login, recovery and user management: how the one data key of a user is wrapped and handed out. */
module Auth {
  import opened Base
  import opened Octets
  import opened Text
  import opened Recovery
  import opened Sessions
  import Crypto

  /** Argon2id cost parameters. */
  datatype Params = Params(time: nat, memory: nat, threads: nat)

  /** A key derived from a secret and a salt; different inputs give different keys. */
  datatype Kek = Kek(secret: string, salt: Bytes, params: Params)

  /** A data key wrapped under a derived key: it opens under that key only. */
  datatype Wrapped = Wrapped(kek: Kek, dek: Bytes)

  function Unwrap(kek: Kek, w: Wrapped): Option<Bytes> {
    if w.kek == kek then Some(w.dek) else None
  }

  const ACTIVE := "active"
  const DISABLED := "disabled"
  const SALT: nat := 16
  const KEY: nat := 32

  datatype User = User(
    username: string, isAdmin: bool, status: string, kdf: Params,
    pwSalt: Bytes, pwWrapped: Wrapped, recSalt: Bytes, recWrapped: Option<Wrapped>, mustChange: bool)

  datatype Error =
    | InvalidCredentials | AccountDisabled | SetupAlreadyDone | UserExists | Forbidden | WeakPassword
    | InvalidUsername | LastAdmin | CannotDeleteSelf | InvalidInput | NotFound

  datatype Result<+T> = Ok(value: T) | Err(error: Error)

  // --- Validation ---

  predicate ValidUsername(u: string) {
    1 <= |u| <= 64 && forall c :: c in u ==>
      'A' <= c <= 'Z' || 'a' <= c <= 'z' || '0' <= c <= '9' || c == '.' || c == '_' || c == '-'
  }

  lemma NameCharacter(c: char)
    ensures c in UPPER <==> 'A' <= c <= 'Z'
    ensures c in LOWER <==> 'a' <= c <= 'z'
    ensures c in DIGITS <==> '0' <= c <= '9'
    ensures c in "._-" <==> c == '.' || c == '_' || c == '-'
  {
    Alphabet();
    if 'A' <= c <= 'Z' { assert UPPER[c as int - 65] == c; }
    if 'a' <= c <= 'z' { assert LOWER[c as int - 97] == c; }
    if '0' <= c <= '9' { assert DIGITS[c as int - 48] == c; }
    assert "._-"[0] == '.' && "._-"[1] == '_' && "._-"[2] == '-';
  }

  /** The rule, by the characters themselves. */
  lemma UsernameRule(u: string)
    ensures ValidUsername(u) <==>
      1 <= |u| <= 64 && forall c :: c in u ==> c in UPPER || c in LOWER || c in DIGITS || c in "._-"
  {
    forall c | c in u ensures
      ('A' <= c <= 'Z' || 'a' <= c <= 'z' || '0' <= c <= '9' || c == '.' || c == '_' || c == '-')
      <==> (c in UPPER || c in LOWER || c in DIGITS || c in "._-")
    {
      NameCharacter(c);
    }
  }

  /** A code point in UTF-8 (section 3 of RFC 3629). */
  ghost function Utf8Char(c: char): Bytes {
    var n := c as int;
    if n < 0x80 then [n as byte]
    else if n < 0x800 then [(0xC0 + n / 64) as byte, (0x80 + n % 64) as byte]
    else if n < 0x10000 then [(0xE0 + n / 4096) as byte, (0x80 + n / 64 % 64) as byte, (0x80 + n % 64) as byte]
    else
      [(0xF0 + n / 262144) as byte, (0x80 + n / 4096 % 64) as byte, (0x80 + n / 64 % 64) as byte,
       (0x80 + n % 64) as byte]
  }

  ghost function Utf8(s: string): Bytes {
    if s == [] then [] else Utf8Char(s[0]) + Utf8(s[1..])
  }

  /** The length in bytes of a string in UTF-8, which is what `len` counts. */
  function Utf8Length(s: string): nat {
    if s == [] then 0
    else
      (if s[0] < '\U{0080}' then 1 else if s[0] < '\U{0800}' then 2 else if s[0] < '\U{10000}' then 3 else 4)
      + Utf8Length(s[1..])
  }

  lemma {:induction false} Utf8Counted(s: string)
    ensures Utf8Length(s) == |Utf8(s)|
  {
    if s != [] { Utf8Counted(s[1..]); }
  }

  predicate ValidPassword(p: string) {
    Utf8Length(p) >= 8
  }

  /** Between one and four bytes a character; one each in ASCII. */
  lemma {:induction false} Utf8Widths(s: string)
    ensures |s| <= Utf8Length(s) <= 4 * |s|
    ensures (forall c :: c in s ==> c < '\U{0080}') ==> Utf8Length(s) == |s|
  {
    if s != [] {
      Utf8Widths(s[1..]);
      assert s[0] in s && forall c :: c in s[1..] ==> c in s;
    }
  }

  /** A password takes at least eight bytes; eight characters do, and in ASCII it takes as many. */
  lemma PasswordRule(p: string)
    ensures ValidPassword(p) <==> |Utf8(p)| >= 8
    ensures |p| >= 8 ==> ValidPassword(p)
    ensures (forall c :: c in p ==> c < '\U{0080}') ==> (ValidPassword(p) <==> |p| >= 8)
  {
    Utf8Counted(p);
    Utf8Widths(p);
  }

  /** Fewer characters than the error message asks for may do: four with an accent, say. */
  lemma FourCharactersDo() returns (p: string)
    ensures ValidPassword(p) && |p| == 4
  {
    var one := "\U{00E9}";
    var two := one + one;
    p := two + two;
    assert p[1..] == two + one && p[1..][1..] == two && p[1..][1..][1..] == one && one[1..] == [];
    assert Utf8Length(one) == 2 && Utf8Length(p[1..][1..]) == 4 && Utf8Length(p[1..]) == 6;
  }

  /** User names are compared without regard to ASCII case. */
  predicate SameName(a: string, b: string) {
    ToUpperAscii(a) == ToUpperAscii(b)
  }

  lemma SameNameRule(a: string, b: string)
    ensures SameName(a, b) <==> SameLetters(a, b)
  {
    Folded(a, b);
  }

  // --- The key envelope ---

  /** What a user currently holds: the latest password, the latest recovery code if there is one, and the data key. */
  datatype Keyring = Keyring(password: string, code: Option<string>, dek: Bytes)

  /** The stored record wraps the one data key under the latest password and under the latest code, and nothing else. */
  ghost predicate Envelope(u: User, k: Keyring) {
    && u.pwWrapped == Wrapped(Kek(k.password, u.pwSalt, u.kdf), k.dek)
    && |k.dek| == KEY
    && match k.code
       case None => u.recWrapped == None
       case Some(code) => u.recSalt != [] && u.recWrapped == Some(Wrapped(Kek(code, u.recSalt, u.kdf), k.dek))
  }

  function OpenPassword(u: User, password: string): Option<Bytes> {
    Unwrap(Kek(password, u.pwSalt, u.kdf), u.pwWrapped)
  }

  function OpenRecovery(u: User, code: string): Option<Bytes> {
    if u.recWrapped.None? || u.recSalt == [] then None
    else Unwrap(Kek(Normalize(code), u.recSalt, u.kdf), u.recWrapped.value)
  }

  /** The latest password and the latest code open the record to the same key; every other secret opens nothing. */
  lemma OnlyLatestOpens(u: User, k: Keyring, secret: string)
    requires Envelope(u, k)
    ensures OpenPassword(u, secret) == if secret == k.password then Some(k.dek) else None
    ensures OpenRecovery(u, secret) == if k.code == Some(Normalize(secret)) then Some(k.dek) else None
  {
    match k.code {
      case None => {}
      case Some(code) => {}
    }
  }

  /** The record after a password change under the given parameters; those replace the ones stored. */
  function WithPassword(u: User, salt: Bytes, wrapped: Wrapped, kdf: Params, mustChange: bool): User {
    u.(kdf := kdf, pwSalt := salt, pwWrapped := wrapped, mustChange := mustChange)
  }

  /** The record after a new recovery code; the stored parameters stay. */
  function WithRecovery(u: User, salt: Bytes, wrapped: Wrapped): User {
    u.(recSalt := salt, recWrapped := Some(wrapped))
  }

  /**
   * Both secrets share the stored parameters. After a password change the recovery code still opens the record exactly
   * when the service derives keys with the parameters stored before; and a new recovery code, however typed, opens it
   * on the same condition.
   */
  lemma SharedParameters(u: User, k: Keyring, salt: Bytes, secret: string, typed: string, kdf: Params)
    requires Envelope(u, k) && salt != []
    ensures var after := WithPassword(u, salt, Wrapped(Kek(secret, salt, kdf), k.dek), kdf, false);
      k.code == Some(Normalize(typed)) ==> (OpenRecovery(after, typed) == Some(k.dek) <==> kdf == u.kdf)
    ensures var after := WithRecovery(u, salt, Wrapped(Kek(secret, salt, kdf), k.dek));
      secret == Normalize(typed) ==> (OpenRecovery(after, typed) == Some(k.dek) <==> kdf == u.kdf)
  {
  }

  /** A record from before the parameters were raised: changing its password loses the code. */
  lemma CodeLost() returns (u: User, k: Keyring, kdf: Params, salt: Bytes, code: string)
    ensures Envelope(u, k) && salt != [] && kdf != u.kdf
    ensures OpenRecovery(u, code) == Some(k.dek)
    ensures OpenRecovery(WithPassword(u, salt, Wrapped(Kek("secret", salt, kdf), k.dek), kdf, false), code) == None
  {
    var old', dek := Params(1, 65536, 4), seq(KEY, _ => 0 as byte);
    kdf, salt, code := Params(3, 65536, 4), [0], "A";
    k := Keyring("former", Some(Normalize(code)), dek);
    u := User(
      "ann", false, ACTIVE, old', [0], Wrapped(Kek("former", [0], old'), dek),
      [1], Some(Wrapped(Kek(Normalize(code), [1], old'), dek)), false);
  }

  // --- The service ---

  method ArrayOf(b: Bytes) returns (a: array<byte>)
    ensures fresh(a) && a[..] == b
  {
    a := new byte[|b|](i requires 0 <= i < |b| => b[i]);
  }

  ghost predicate Administered(users: map<Id, User>) {
    exists id :: id in users && users[id].isAdmin && users[id].status == ACTIVE
  }

  /** Whichever account is lost, an active administrator remains. */
  ghost predicate Spare(users: map<Id, User>) {
    exists a, b :: a != b
      && a in users && users[a].isAdmin && users[a].status == ACTIVE
      && b in users && users[b].isAdmin && users[b].status == ACTIVE
  }

  /** Without that account there is still an active administrator. */
  ghost predicate OtherAdmin(users: map<Id, User>, id: Id) {
    exists other :: other in users && other != id && users[other].isAdmin && users[other].status == ACTIVE
  }

  /** The two differ where the account is not active itself: a disabled administrator cannot be deleted by the only
      active one, although an active administrator would remain. */
  lemma RefusedForNothing() returns (users: map<Id, User>, id: Id)
    ensures id in users && users[id].isAdmin && !Spare(users) && OtherAdmin(users, id)
  {
    var wrapped := Wrapped(Kek("password", [], Params(3, 65536, 4)), []);
    var ann := User("ann", true, ACTIVE, Params(3, 65536, 4), [], wrapped, [], None, false);
    users, id := map[0 := ann, 1 := ann.(username := "bob", status := DISABLED)], 1;
    assert users[0] == ann;
  }

  /** Exactly one account is an active administrator's. */
  ghost predicate OneAdmin(users: map<Id, User>) {
    exists one :: one in users && users[one].isAdmin && users[one].status == ACTIVE
      && !OtherAdmin(users, one)
  }

  /** The guard refuses although an active administrator would remain exactly when there is a single active one and
      that is not the target. */
  lemma RefusalExact(users: map<Id, User>, id: Id)
    requires id in users && users[id].isAdmin
    ensures !Spare(users) && OtherAdmin(users, id) <==> OneAdmin(users) && users[id].status != ACTIVE
  {
  }

  /** For an active administrator the two are the same. */
  lemma SpareIsOther(users: map<Id, User>, id: Id)
    requires id in users && users[id].isAdmin && users[id].status == ACTIVE
    ensures Spare(users) <==> OtherAdmin(users, id)
  {
  }

  lemma {:induction false} Fits(s: set<Id>, t: set<Id>)
    requires s <= t
    ensures |s| <= |t|
  {
    if x :| x in s { Fits(s - {x}, t - {x}); }
  }

  lemma TwoMembers(s: set<Id>)
    ensures |s| > 1 <==> exists a, b :: a in s && b in s && a != b
  {
    if |s| > 1 {
      var a :| a in s;
      assert |s - {a}| > 0;
      var b :| b in s - {a};
    }
    if a, b :| a in s && b in s && a != b {
      assert {a, b} <= s;
      Fits({a, b}, s);
    }
  }

  lemma CountIsSpare(users: map<Id, User>, admins: set<Id>)
    requires forall id :: id in admins <==> id in users && users[id].isAdmin && users[id].status == ACTIVE
    ensures |admins| > 1 <==> Spare(users)
  {
    TwoMembers(admins);
    if |admins| > 1 {
      var a, b :| a in admins && b in admins && a != b;
      assert users[a].isAdmin && users[b].isAdmin;
    }
  }

  ghost predicate NamesApart(users: map<Id, User>) {
    forall id, other {:trigger SameName(users[id].username, users[other].username)} ::
      id in users && other in users && SameName(users[id].username, users[other].username) ==> id == other
  }

  /** The name belongs to no account but that one. */
  ghost predicate Free(users: map<Id, User>, id: Id, name: string) {
    forall other {:trigger SameName(users[other].username, name)} ::
      other in users && SameName(users[other].username, name) ==> other == id
  }

  lemma NamesStayApart(users: map<Id, User>, id: Id, u: User)
    requires NamesApart(users) && Free(users, id, u.username)
    ensures NamesApart(users[id := u])
  {
    var after := users[id := u];
    forall a, b | a in after && b in after && SameName(after[a].username, after[b].username) ensures a == b {
      if a != id && b != id {
        assert SameName(users[a].username, users[b].username);
      } else {
        var other := if a != id then a else b;
        var clash := other in users && SameName(users[other].username, u.username);
      }
    }
  }

  lemma OwnNameIsFree(users: map<Id, User>, id: Id)
    requires NamesApart(users) && id in users
    ensures Free(users, id, users[id].username)
  {
  }

  ghost predicate Envelopes(users: map<Id, User>, rings: map<Id, Keyring>, kdf: Params)
    requires users.Keys == rings.Keys
  {
    forall id {:trigger Envelope(users[id], rings[id])} :: id in users ==>
      Envelope(users[id], rings[id]) && users[id].kdf == kdf
  }

  lemma EnvelopeReplaced(users: map<Id, User>, rings: map<Id, Keyring>, kdf: Params, id: Id, u: User, k: Keyring)
    requires users.Keys == rings.Keys && Envelopes(users, rings, kdf) && Envelope(u, k) && u.kdf == kdf
    ensures Envelopes(users[id := u], rings[id := k], kdf)
  {
    var users', rings' := users[id := u], rings[id := k];
    forall i | i in users' ensures Envelope(users'[i], rings'[i]) && users'[i].kdf == kdf {
      if i != id { assert Envelope(users[i], rings[i]); }
    }
  }

  /** Every record is a sound envelope, names are unique, and somebody can administer. */
  ghost predicate Accounts(users: map<Id, User>, rings: map<Id, Keyring>, kdf: Params) {
    && users.Keys == rings.Keys && Envelopes(users, rings, kdf)
    && NamesApart(users)
    && (users != map[] ==> Administered(users))
  }

  lemma AdminStays(users: map<Id, User>, id: Id, u: User)
    requires id in users && u.isAdmin == users[id].isAdmin && u.status == users[id].status
    requires Administered(users)
    ensures Administered(users[id := u])
  {
    var i :| i in users && users[i].isAdmin && users[i].status == ACTIVE;
    assert users[id := u][i].isAdmin;
  }

  /** The session belongs to an active account, with its rights and on its data key. */
  ghost predicate Backed(s: Session, issued: map<Session, Bytes>, users: map<Id, User>, rings: map<Id, Keyring>) {
    && s in issued && s.userId in users && s.userId in rings
    && users[s.userId].status == ACTIVE && users[s.userId].isAdmin == s.isAdmin && issued[s] == rings[s.userId].dek
  }

  ghost predicate AllBacked(
    live: map<Id, Session>, issued: map<Session, Bytes>, users: map<Id, User>, rings: map<Id, Keyring>)
  {
    forall t {:trigger Backed(live[t], issued, users, rings)} :: t in live ==> Backed(live[t], issued, users, rings)
  }

  /** An account whose name and rights stay may get another envelope. */
  lemma RekeyedAccounts(users: map<Id, User>, rings: map<Id, Keyring>, kdf: Params, id: Id, u: User, k: Keyring)
    requires Accounts(users, rings, kdf) && id in users && Envelope(u, k) && u.kdf == kdf
    requires u.username == users[id].username && u.isAdmin == users[id].isAdmin && u.status == users[id].status
    ensures Accounts(users[id := u], rings[id := k], kdf)
  {
    OwnNameIsFree(users, id);
    NamesStayApart(users, id, u);
    EnvelopeReplaced(users, rings, kdf, id, u, k);
    AdminStays(users, id, u);
  }

  /** Sessions care about rights, status and data key only. */
  lemma ReplacedBacked(
    live: map<Id, Session>, issued: map<Session, Bytes>, users: map<Id, User>, rings: map<Id, Keyring>, id: Id,
    u: User, k: Keyring)
    requires AllBacked(live, issued, users, rings) && id in users && id in rings
    requires u.isAdmin == users[id].isAdmin && u.status == users[id].status && k.dek == rings[id].dek
    ensures AllBacked(live, issued, users[id := u], rings[id := k])
  {
    forall t | t in live ensures Backed(live[t], issued, users[id := u], rings[id := k]) {
      assert Backed(live[t], issued, users, rings);
    }
  }

  ghost function Renamed(users: map<Id, User>, id: Id, name: string): map<Id, User> {
    if id in users then users[id := users[id].(username := name)] else users
  }

  lemma RenamedAccounts(
    live: map<Id, Session>, issued: map<Session, Bytes>, users: map<Id, User>, rings: map<Id, Keyring>, kdf: Params,
    id: Id, name: string, after: map<Id, User>)
    requires Accounts(users, rings, kdf) && AllBacked(live, issued, users, rings)
    requires id in users && Free(users, id, name) && after == Renamed(users, id, name)
    ensures Accounts(after, rings, kdf) && AllBacked(live, issued, after, rings)
  {
    NamesStayApart(users, id, after[id]);
    assert Envelope(users[id], rings[id]);
    EnvelopeReplaced(users, rings, kdf, id, after[id], rings[id]);
    ReplacedBacked(live, issued, users, rings, id, after[id], rings[id]);
    assert rings[id := rings[id]] == rings;
    AdminStays(users, id, after[id]);
  }

  lemma AddedAccounts(users: map<Id, User>, rings: map<Id, Keyring>, kdf: Params, id: Id, u: User, k: Keyring)
    requires Accounts(users, rings, kdf) && id !in users && Envelope(u, k) && u.kdf == kdf
    requires Free(users, id, u.username)
    requires users == map[] ==> u.isAdmin && u.status == ACTIVE
    ensures Accounts(users[id := u], rings[id := k], kdf)
  {
    var after := users[id := u];
    NamesStayApart(users, id, u);
    EnvelopeReplaced(users, rings, kdf, id, u, k);
    if users == map[] {
      assert after[id].isAdmin && after[id].status == ACTIVE;
    } else {
      var admin :| admin in users && users[admin].isAdmin && users[admin].status == ACTIVE;
      assert after[admin] == users[admin];
    }
  }

  lemma StatusAccounts(users: map<Id, User>, rings: map<Id, Keyring>, kdf: Params, id: Id, status: string)
    requires Accounts(users, rings, kdf) && id in users
    requires status == ACTIVE || !users[id].isAdmin || Spare(users)
    ensures Accounts(users[id := users[id].(status := status)], rings, kdf)
  {
    var u := users[id].(status := status);
    var after := users[id := u];
    assert Envelope(users[id], rings[id]);
    EnvelopeReplaced(users, rings, kdf, id, u, rings[id]);
    assert rings[id := rings[id]] == rings;
    OwnNameIsFree(users, id);
    NamesStayApart(users, id, u);
    var admin :| admin in users && users[admin].isAdmin && users[admin].status == ACTIVE;
    if status != ACTIVE && users[id].isAdmin {
      admin :| admin in users && admin != id && users[admin].isAdmin && users[admin].status == ACTIVE;
    }
    assert after[admin].isAdmin && after[admin].status == ACTIVE;
  }

  lemma EnabledBacked(
    live: map<Id, Session>, issued: map<Session, Bytes>, users: map<Id, User>, rings: map<Id, Keyring>, id: Id,
    status: string, after: map<Id, User>)
    requires AllBacked(live, issued, users, rings) && id in users
    requires status == ACTIVE && after == users[id := users[id].(status := status)]
    ensures AllBacked(live, issued, after, rings)
  {
    forall t | t in live ensures Backed(live[t], issued, after, rings) {
      assert Backed(live[t], issued, users, rings);
    }
  }

  /** Whatever happens to one account, the sessions of the others stay backed. */
  lemma OthersBacked(
    live: map<Id, Session>, issued: map<Session, Bytes>, before: map<Id, User>, ringed: map<Id, Keyring>,
    users: map<Id, User>, rings: map<Id, Keyring>, id: Id)
    requires AllBacked(live, issued, before, ringed)
    requires users - {id} == before - {id} && rings - {id} == ringed - {id}
    ensures AllBacked(SessionsWithout(live, id), issued, users, rings)
  {
    var left := SessionsWithout(live, id);
    forall t | t in left ensures Backed(left[t], issued, users, rings) {
      assert Backed(live[t], issued, before, ringed);
      var i := live[t].userId;
      assert i in before - {id} && i in ringed - {id};
      assert users[i] == (users - {id})[i] == before[i] && rings[i] == (rings - {id})[i] == ringed[i];
    }
  }

  lemma RemovedAccounts(
    users: map<Id, User>, rings: map<Id, Keyring>, kdf: Params, id: Id, after: map<Id, User>, left: map<Id, Keyring>)
    requires Accounts(users, rings, kdf) && id in users && after == users - {id} && left == rings - {id}
    requires users[id].isAdmin ==> Spare(users)
    ensures Accounts(after, left, kdf) && after != map[]
  {
    forall i | i in after ensures Envelope(after[i], left[i]) && after[i].kdf == kdf {
      assert Envelope(users[i], rings[i]);
    }
    forall a, b | a in after && b in after && SameName(after[a].username, after[b].username) ensures a == b {
      assert SameName(users[a].username, users[b].username);
    }
    var admin :| admin in users && users[admin].isAdmin && users[admin].status == ACTIVE;
    if admin == id {
      admin :| admin in users && admin != id && users[admin].isAdmin && users[admin].status == ACTIVE;
    }
    assert after[admin] == users[admin];
  }

  lemma RemovedBacked(
    live: map<Id, Session>, issued: map<Session, Bytes>, users: map<Id, User>, rings: map<Id, Keyring>, id: Id,
    after: map<Id, User>, left: map<Id, Keyring>)
    requires AllBacked(live, issued, users, rings) && after == users - {id} && left == rings - {id}
    requires forall t :: t in live ==> live[t].userId != id
    ensures AllBacked(live, issued, after, left)
  {
    assert SessionsWithout(live, id) == live;
    OthersBacked(live, issued, users, rings, after, left, id);
  }

  class Service {
    var users: map<Id, User>
    const sessions: Manager
    const kdf: Params
    ghost var rings: map<Id, Keyring>

    ghost predicate Valid()
      reads this, sessions, sessions.Repr()
    {
      sessions.Valid() && Accounts(users, rings, kdf) && AllBacked(sessions.sessions, sessions.issued, users, rings)
    }

    /** The account behind a live session. */
    lemma LiveIsBacked(s: Session)
      requires Valid() && sessions.Live(s)
      ensures Backed(s, sessions.issued, users, rings) && Envelope(users[s.userId], rings[s.userId])
    {
      assert Backed(sessions.sessions[s.token], sessions.issued, users, rings);
      assert Envelope(users[s.userId], rings[s.userId]);
    }

    /** Latest password, latest recovery code and every live session of a user yield one and the same data key. */
    lemma OneKey(s: Session, secret: string)
      requires Valid() && sessions.Live(s)
      ensures s.userId in users && s.userId in rings
      ensures OpenPassword(users[s.userId], secret)
        == if secret == rings[s.userId].password then Some(s.dek[..]) else None
      ensures OpenRecovery(users[s.userId], secret)
        == if rings[s.userId].code == Some(Normalize(secret)) then Some(s.dek[..]) else None
    {
      LiveIsBacked(s);
      OnlyLatestOpens(users[s.userId], rings[s.userId], secret);
    }

    /** The account of that name, of which there is at most one. */
    ghost function Holder(name: string): Option<Id>
      reads this
    {
      if exists id :: id in users && SameName(users[id].username, name)
      then var id :| id in users && SameName(users[id].username, name); Some(id)
      else None
    }

    constructor (idleTtl: int, absTtl: int, kdf: Params)
      ensures Valid() && users == map[] && this.kdf == kdf && fresh(sessions)
    {
      this.kdf := kdf;
      users, rings := map[], map[];
      sessions := new Manager(idleTtl, absTtl);
    }

    lemma AddedBacked(id: Id, u: User, k: Keyring)
      requires AllBacked(sessions.sessions, sessions.issued, users, rings) && id !in users
      ensures AllBacked(sessions.sessions, sessions.issued, users[id := u], rings[id := k])
    {
      var live, issued := sessions.sessions, sessions.issued;
      forall t | t in live ensures Backed(live[t], issued, users[id := u], rings[id := k]) {
        assert Backed(live[t], issued, users, rings);
      }
    }

    /** Inserts an account row, unless the name is taken: the column is unique. */
    method CreateUser(u: User, ghost k: Keyring) returns (id: Option<Id>)
      requires Valid() && Envelope(u, k) && u.kdf == kdf
      modifies `users, `rings
      ensures id.None? <==> exists other :: other in old(users) && SameName(old(users)[other].username, u.username)
      ensures id.None? ==> users == old(users) && rings == old(rings)
      ensures id.Some? ==>
        id.value !in old(users) && users == old(users)[id.value := u] && rings == old(rings)[id.value := k]
      ensures old(users) != map[] || (u.isAdmin && u.status == ACTIVE) ==> Valid()
    {
      if other :| other in users && SameName(users[other].username, u.username) { return None; }
      var row := NewId(users.Keys);
      if users != map[] || (u.isAdmin && u.status == ACTIVE) { AddedAccounts(users, rings, kdf, row, u, k); }
      AddedBacked(row, u, k);
      users := users[row := u];
      rings := rings[row := k];
      id := Some(row);
    }

    method WrapWithSecret(dek: Bytes, secret: string) returns (salt: Bytes, wrapped: Wrapped)
      ensures |salt| == SALT && wrapped == Wrapped(Kek(secret, salt, kdf), dek)
    {
      salt := Crypto.RandomBytes(SALT);
      wrapped := Wrapped(Kek(secret, salt, kdf), dek);
    }

    lemma SameTwice(a: string, b: string, name: string)
      requires SameName(a, name) && SameName(b, name)
      ensures SameName(a, b)
    {
    }

    method GetUserByUsername(name: string) returns (id: Option<Id>)
      requires Valid()
      ensures id == Holder(name)
      ensures id.Some? ==> id.value in users && SameName(users[id.value].username, name)
      ensures id.None? ==> forall i :: i in users ==> !SameName(users[i].username, name)
    {
      id := None;
      if i :| i in users && SameName(users[i].username, name) {
        var held := Holder(name).value;
        SameTwice(users[i].username, users[held].username, name);
        id := Some(i);
      }
    }

    /** An active administrator of that name, holding that password and that recovery code. */
    ghost predicate Administers(id: Id, name: string, password: string, code: string)
      reads this
    {
      && id in users && id in rings
      && rings[id].password == password && rings[id].code == Some(code)
      && users[id].username == name && users[id].isAdmin && users[id].status == ACTIVE && !users[id].mustChange
    }

    /** Creates the first administrator, and returns the recovery code to display. */
    method Setup(username: string, password: string) returns (r: Result<string>)
      requires Valid()
      modifies `users, `rings
      ensures Valid()
      ensures !ValidUsername(TrimSpace(username)) ==> r == Err(InvalidUsername)
      ensures ValidUsername(TrimSpace(username)) && !ValidPassword(password) ==> r == Err(WeakPassword)
      ensures ValidUsername(TrimSpace(username)) && ValidPassword(password) ==>
        (old(users) != map[] <==> r == Err(SetupAlreadyDone)) && (old(users) == map[] <==> r.Ok?)
      ensures r.Err? ==> users == old(users) && rings == old(rings)
      ensures r.Ok? ==> exists id ::
        id in users && users == map[id := users[id]]
          && Administers(id, TrimSpace(username), password, Normalize(r.value))
    {
      var name := TrimSpace(username);
      if !ValidUsername(name) { return Err(InvalidUsername); }
      if !ValidPassword(password) { return Err(WeakPassword); }
      if |users| > 0 { return Err(SetupAlreadyDone); }
      var dek := Crypto.RandomBytes(KEY);
      var pwSalt, pwWrapped := WrapWithSecret(dek, password);
      var display, canonical := GenerateRecoveryCode();
      var recSalt, recWrapped := WrapWithSecret(dek, canonical);
      var u := User(name, true, ACTIVE, kdf, pwSalt, pwWrapped, recSalt, Some(recWrapped), false);
      var id := CreateUser(u, Keyring(password, Some(canonical), dek));
      assert Administers(id.value, name, password, canonical);
      r := Ok(display);
    }

    /** The session a successful login or recovery starts: a new one, on the user's data key. */
    twostate predicate Started(new s: Session, id: Id, mustChange: bool)
      reads this, sessions, s
    {
      && id in users && id in rings
      && s.userId == id && s.isAdmin == users[id].isAdmin && s.mustChangePassword == mustChange
      && s.token !in old(sessions.sessions) && sessions.sessions == old(sessions.sessions)[s.token := s]
      && s !in old(sessions.issued) && sessions.issued == old(sessions.issued)[s := rings[id].dek]
    }

    lemma StartedBacked(live: map<Id, Session>, issued: map<Session, Bytes>, s: Session)
      requires AllBacked(live, issued, users, rings)
      requires s !in issued && s.userId in users && s.userId in rings
      requires users[s.userId].status == ACTIVE && users[s.userId].isAdmin == s.isAdmin
      ensures AllBacked(live[s.token := s], issued[s := rings[s.userId].dek], users, rings)
    {
      var live', issued' := live[s.token := s], issued[s := rings[s.userId].dek];
      forall t | t in live' ensures Backed(live'[t], issued', users, rings) {
        if t != s.token { assert Backed(live[t], issued, users, rings); }
      }
    }

    method StartSession(id: Id, mustChange: bool, dek: Bytes, now: int) returns (s: Session)
      requires Valid() && id in users && users[id].status == ACTIVE && dek == rings[id].dek
      modifies sessions`sessions, sessions`issued
      ensures Valid() && fresh(s) && fresh(s.dek) && Started(s, id, mustChange)
    {
      var key := ArrayOf(dek);
      ghost var live, issued := sessions.sessions, sessions.issued;
      s := sessions.Create(id, users[id].username, users[id].isAdmin, mustChange, key, now);
      Zero(key);
      StartedBacked(live, issued, s);
    }

    /** Succeeds exactly for an active account and its latest password. */
    method Login(username: string, password: string, now: int) returns (r: Result<Session>)
      requires Valid()
      modifies sessions`sessions, sessions`issued
      ensures Valid()
      ensures var id := Holder(TrimSpace(username));
              if id.None? then r == Err(InvalidCredentials)
              else if users[id.value].status != ACTIVE then r == Err(AccountDisabled)
              else if password != rings[id.value].password then r == Err(InvalidCredentials)
              else r.Ok? && Started(r.value, id.value, users[id.value].mustChange)
      ensures r.Err? ==> sessions.sessions == old(sessions.sessions) && sessions.issued == old(sessions.issued)
      ensures r.Ok? ==> fresh(r.value) && fresh(r.value.dek)
    {
      var id := GetUserByUsername(TrimSpace(username));
      if id.None? { return Err(InvalidCredentials); }
      var u := users[id.value];
      if u.status != ACTIVE { return Err(AccountDisabled); }
      assert Envelope(users[id.value], rings[id.value]);
      OnlyLatestOpens(u, rings[id.value], password);
      var dek := OpenPassword(u, password);
      if dek.None? { return Err(InvalidCredentials); }
      var s := StartSession(id.value, u.mustChange, dek.value, now);
      r := Ok(s);
    }

    /** Succeeds exactly for an active account and its latest recovery code, however typed; a new password is due. */
    method Recover(username: string, recoveryCode: string, now: int) returns (r: Result<Session>)
      requires Valid()
      modifies sessions`sessions, sessions`issued
      ensures Valid()
      ensures var id := Holder(TrimSpace(username));
              if id.None? then r == Err(InvalidCredentials)
              else if users[id.value].status != ACTIVE then r == Err(AccountDisabled)
              else if rings[id.value].code != Some(Normalize(recoveryCode)) then r == Err(InvalidCredentials)
              else r.Ok? && Started(r.value, id.value, true)
      ensures r.Err? ==> sessions.sessions == old(sessions.sessions) && sessions.issued == old(sessions.issued)
      ensures r.Ok? ==> fresh(r.value) && fresh(r.value.dek)
    {
      var id := GetUserByUsername(TrimSpace(username));
      if id.None? { return Err(InvalidCredentials); }
      var u := users[id.value];
      if u.status != ACTIVE { return Err(AccountDisabled); }
      assert Envelope(users[id.value], rings[id.value]);
      OnlyLatestOpens(u, rings[id.value], recoveryCode);
      var dek := OpenRecovery(u, recoveryCode);
      if dek.None? { return Err(InvalidCredentials); }
      var s := StartSession(id.value, true, dek.value, now);
      r := Ok(s);
    }

    method Rename(sess: Session, name: string)
      requires Valid() && sessions.Live(sess) && sess.userId in users && Free(users, sess.userId, name)
      modifies `users, sess`username
      ensures Valid() && sess.username == name
      ensures users == Renamed(old(users), sess.userId, name)
    {
      var after := users[sess.userId := users[sess.userId].(username := name)];
      RenamedAccounts(sessions.sessions, sessions.issued, users, rings, kdf, sess.userId, name, after);
      users := after;
      sessions.SetUsername(sess.token, name);
    }

    lemma OnlyHolder(name: string, existing: Option<Id>, id: Id)
      requires NamesApart(users)
      requires existing.Some? ==> existing.value == id && id in users && SameName(users[id].username, name)
      requires existing.None? ==> forall i :: i in users ==> !SameName(users[i].username, name)
      ensures Free(users, id, name)
    {
      forall other | other in users && SameName(users[other].username, name) ensures other == id {
        assert existing.Some?;
        SameTwice(users[other].username, users[id].username, name);
      }
    }

    /** Another account must not hold the new name; the user's own may, in another case. */
    method ChangeUsername(sess: Session, newUsername: string) returns (r: Result<()>)
      requires Valid() && sessions.Live(sess)
      modifies `users, sess`username
      ensures Valid()
      ensures var name := TrimSpace(newUsername);
              if !ValidUsername(name) then r == Err(InvalidUsername)
              else if !Free(old(users), sess.userId, name) then r == Err(UserExists)
              else r.Ok? && sess.username == name
      ensures users == if r.Err? then old(users)
                       else Renamed(old(users), sess.userId, TrimSpace(newUsername))
    {
      var name := TrimSpace(newUsername);
      if !ValidUsername(name) { return Err(InvalidUsername); }
      var existing := GetUserByUsername(name);
      LiveIsBacked(sess);
      if existing.Some? && existing.value != sess.userId { return Err(UserExists); }
      OnlyHolder(name, existing, sess.userId);
      Rename(sess, name);
      r := Ok(());
    }

    /** Writes the key columns of an account row, and no others. */
    method UpdateUserKeys(id: Id, u: User)
      requires id in users
      modifies `users
      ensures id in users && users == old(users)[id := users[id]]
      ensures var was := old(users)[id];
        users[id] == u.(username := was.username, isAdmin := was.isAdmin, status := was.status)
    {
      users := users[id := users[id].(
        kdf := u.kdf, pwSalt := u.pwSalt, pwWrapped := u.pwWrapped,
        recSalt := u.recSalt, recWrapped := u.recWrapped, mustChange := u.mustChange)];
    }

    /** Name, rights and status of an account stay, and every other account stays altogether. */
    twostate predicate OnlyKeysChanged(id: Id)
      reads this
    {
      && id in old(users) && id in users
      && users == old(users)[id := users[id]]
      && users[id].username == old(users[id].username) && users[id].isAdmin == old(users[id].isAdmin)
      && users[id].status == old(users[id].status)
    }

    /** Stores another envelope of the same data key. */
    method Rekey(id: Id, u: User, ghost k: Keyring)
      requires Valid() && id in users && id in rings && Envelope(u, k) && u.kdf == kdf && k.dek == rings[id].dek
      requires u.username == users[id].username && u.isAdmin == users[id].isAdmin && u.status == users[id].status
      modifies `users, `rings
      ensures Valid() && users == old(users)[id := u] && rings == old(rings)[id := k]
    {
      RekeyedAccounts(users, rings, kdf, id, u, k);
      ReplacedBacked(sessions.sessions, sessions.issued, users, rings, id, u, k);
      UpdateUserKeys(id, u);
      rings := rings[id := k];
    }

    /** The record and the keyring after a change of password, with a first recovery code where there was none. */
    method Rewrapped(u: User, ghost k: Keyring, dek: Bytes, password: string)
      returns (u': User, ghost k': Keyring, display: string)
      requires Envelope(u, k) && u.kdf == kdf && dek == k.dek
      ensures Envelope(u', k') && u'.kdf == kdf && !u'.mustChange
      ensures u'.username == u.username && u'.isAdmin == u.isAdmin && u'.status == u.status
      ensures k' == Keyring(password, if k.code.Some? then k.code else Some(Normalize(display)), k.dek)
    {
      var pwSalt, pwWrapped := WrapWithSecret(dek, password);
      u' := WithPassword(u, pwSalt, pwWrapped, kdf, false);
      k' := k.(password := password);
      display := "";
      if u'.recWrapped.None? {
        var canonical;
        display, canonical := GenerateRecoveryCode();
        var recSalt, recWrapped := WrapWithSecret(dek, canonical);
        u' := WithRecovery(u', recSalt, recWrapped);
        k' := k'.(code := Some(canonical));
      }
    }

    /** The data key of a live session; the copy drawn from it is scrubbed. */
    method SessionKey(sess: Session) returns (dek: Bytes)
      requires Valid() && sessions.Live(sess)
      ensures Backed(sess, sessions.issued, users, rings) && Envelope(users[sess.userId], rings[sess.userId])
      ensures users[sess.userId].kdf == kdf && dek == rings[sess.userId].dek
    {
      LiveIsBacked(sess);
      var cp := sess.DEK();
      dek := cp[..];
      Zero(cp);
    }

    method SetPassword(sess: Session, newPassword: string) returns (display: string)
      requires Valid() && sessions.Live(sess)
      modifies `users, `rings, sess`mustChangePassword
      ensures Valid() && sess.userId in old(rings) && OnlyKeysChanged(sess.userId)
      ensures !users[sess.userId].mustChange && !sess.mustChangePassword
      ensures var k := old(rings)[sess.userId];
        var code := if k.code.Some? then k.code else Some(Normalize(display));
        rings == old(rings)[sess.userId := Keyring(newPassword, code, k.dek)]
    {
      var id := sess.userId;
      var dek := SessionKey(sess);
      var u;
      ghost var k;
      u, k, display := Rewrapped(users[id], rings[id], dek, newPassword);
      Rekey(id, u, k);
      sessions.SetMustChangePassword(sess.token, false);
    }

    /** The data key stays; the new password replaces the old one; a first recovery code is issued if there was none. */
    method ChangePassword(sess: Session, newPassword: string) returns (r: Result<string>)
      requires Valid() && sessions.Live(sess)
      modifies `users, `rings, sess`mustChangePassword
      ensures Valid()
      ensures !ValidPassword(newPassword) ==> r == Err(WeakPassword)
      ensures ValidPassword(newPassword) ==> r.Ok?
      ensures r.Err? ==> users == old(users) && rings == old(rings)
      ensures r.Ok? ==>
        && sess.userId in old(rings) && OnlyKeysChanged(sess.userId)
        && !users[sess.userId].mustChange && !sess.mustChangePassword
        && var k := old(rings)[sess.userId];
           var code := if k.code.Some? then k.code else Some(Normalize(r.value));
           rings == old(rings)[sess.userId := Keyring(newPassword, code, k.dek)]
    {
      if !ValidPassword(newPassword) { return Err(WeakPassword); }
      var display := SetPassword(sess, newPassword);
      r := Ok(display);
    }

    /** The data key and the password stay; the old recovery code is void. */
    method RegenerateRecoveryCode(sess: Session) returns (display: string)
      requires Valid() && sessions.Live(sess)
      modifies `users, `rings
      ensures Valid() && sess.userId in old(rings) && OnlyKeysChanged(sess.userId)
      ensures rings == old(rings)[sess.userId := old(rings)[sess.userId].(code := Some(Normalize(display)))]
    {
      var id := sess.userId;
      var dek := SessionKey(sess);
      var shown, canonical := GenerateRecoveryCode();
      var recSalt, recWrapped := WrapWithSecret(dek, canonical);
      Rekey(id, WithRecovery(users[id], recSalt, recWrapped), rings[id].(code := Some(canonical)));
      display := shown;
    }

    lemma FewerBacked(live: map<Id, Session>, left: map<Id, Session>)
      requires AllBacked(live, sessions.issued, users, rings)
      requires forall t :: t in left ==> t in live && left[t] == live[t]
      ensures AllBacked(left, sessions.issued, users, rings)
    {
      forall t | t in left ensures Backed(left[t], sessions.issued, users, rings) {
        assert Backed(live[t], sessions.issued, users, rings);
      }
    }

    method Logout(sess: Session)
      requires Valid() && sessions.Live(sess)
      modifies sessions`sessions, sess.dek
      ensures Valid() && sessions.sessions == old(sessions.sessions) - {sess.token}
      ensures Zeroed(sess.dek) && sessions.Scrubbed()
    {
      ghost var live := sessions.sessions;
      sessions.Delete(sess.token);
      FewerBacked(live, sessions.sessions);
    }

    // --- Administration ---

    /** A new account: a temporary password to be changed, no recovery code yet. */
    ghost predicate Provisioned(id: Id, name: string, password: string, isAdmin: bool)
      reads this
    {
      && id in users && id in rings
      && users[id].username == name && users[id].isAdmin == isAdmin && users[id].status == ACTIVE
      && users[id].mustChange
      && rings[id].password == password && rings[id].code == None
    }

    method AdminCreateUser(actor: Session, username: string, tempPassword: string, isAdmin: bool)
      returns (r: Result<Id>)
      requires Valid() && sessions.Live(actor)
      modifies `users, `rings
      ensures Valid()
      ensures var name := TrimSpace(username);
              if !actor.isAdmin then r == Err(Forbidden)
              else if !ValidUsername(name) then r == Err(InvalidUsername)
              else if !ValidPassword(tempPassword) then r == Err(WeakPassword)
              else if old(Holder(name)).Some? then r == Err(UserExists)
              else r.Ok? && r.value !in old(users) && Provisioned(r.value, name, tempPassword, isAdmin)
                   && users == old(users)[r.value := users[r.value]] && rings == old(rings)[r.value := rings[r.value]]
      ensures r.Err? ==> users == old(users) && rings == old(rings)
    {
      if !actor.isAdmin { return Err(Forbidden); }
      var name := TrimSpace(username);
      if !ValidUsername(name) { return Err(InvalidUsername); }
      if !ValidPassword(tempPassword) { return Err(WeakPassword); }
      var existing := GetUserByUsername(name);
      if existing.Some? { return Err(UserExists); }
      LiveIsBacked(actor);
      var dek := Crypto.RandomBytes(KEY);
      var pwSalt, pwWrapped := WrapWithSecret(dek, tempPassword);
      var u := User(name, isAdmin, ACTIVE, kdf, pwSalt, pwWrapped, [], None, true);
      var id := CreateUser(u, Keyring(tempPassword, None, dek));
      r := Ok(id.value);
    }

    /** `CountAdmins`, compared with one. */
    method EnsureNotLastAdmin() returns (ok: bool)
      ensures ok <==> Spare(users)
    {
      var admins := set id | id in users && users[id].isAdmin && users[id].status == ACTIVE;
      CountIsSpare(users, admins);
      ok := |admins| > 1;
    }

    method SetStatus(userId: Id, status: string)
      requires Valid() && userId in users && (status == ACTIVE || status == DISABLED)
      requires status == DISABLED && users[userId].isAdmin ==> Spare(users)
      modifies `users, sessions`sessions, sessions.Keys()
      ensures Valid() && sessions.Scrubbed() && users == old(users)[userId := old(users)[userId].(status := status)]
      ensures sessions.sessions
        == if status == DISABLED then SessionsWithout(old(sessions.sessions), userId) else old(sessions.sessions)
    {
      ghost var live, before := sessions.sessions, users;
      StatusAccounts(users, rings, kdf, userId, status);
      users := users[userId := users[userId].(status := status)];
      if status == DISABLED {
        OthersBacked(live, sessions.issued, before, rings, users, rings, userId);
        sessions.DeleteByUser(userId);
      } else {
        EnabledBacked(live, sessions.issued, before, rings, userId, status, users);
      }
    }

    /** Disabling ends the user's sessions, and never disables the last active administrator. */
    method AdminSetUserStatus(actor: Session, userId: Id, status: string) returns (r: Result<()>)
      requires Valid() && sessions.Live(actor)
      modifies `users, `rings, sessions`sessions, sessions.Keys()
      ensures Valid() && rings == old(rings) && (r.Ok? ==> sessions.Scrubbed())
      ensures if !actor.isAdmin then r == Err(Forbidden)
              else if status != ACTIVE && status != DISABLED then r == Err(InvalidInput)
              else if userId !in old(users) then r == Err(NotFound)
              else if old(users)[userId].isAdmin && status == DISABLED && !Spare(old(users)) then r == Err(LastAdmin)
              else r == Ok(())
      ensures userId in old(users) && old(users)[userId].isAdmin && old(users)[userId].status == ACTIVE ==>
        (r == Err(LastAdmin) <==> actor.isAdmin && status == DISABLED && !OtherAdmin(old(users), userId))
      ensures users == if r.Err? then old(users) else old(users)[userId := old(users)[userId].(status := status)]
      ensures sessions.sessions
        == if r.Ok? && status == DISABLED then SessionsWithout(old(sessions.sessions), userId)
           else old(sessions.sessions)
    {
      if !actor.isAdmin { return Err(Forbidden); }
      if status != ACTIVE && status != DISABLED { return Err(InvalidInput); }
      if userId !in users { return Err(NotFound); }
      if users[userId].isAdmin && users[userId].status == ACTIVE { SpareIsOther(users, userId); }
      if users[userId].isAdmin && status == DISABLED {
        var spare := EnsureNotLastAdmin();
        if !spare { return Err(LastAdmin); }
      }
      SetStatus(userId, status);
      r := Ok(());
    }

    /** Deletes an account row; the account has no session any more. */
    method DeleteUser(userId: Id)
      requires Valid() && userId in users
      requires users[userId].isAdmin ==> Spare(users)
      requires forall t :: t in sessions.sessions ==> sessions.sessions[t].userId != userId
      modifies `users, `rings
      ensures Valid() && users == old(users) - {userId} && rings == old(rings) - {userId} && users != map[]
    {
      var after := users - {userId};
      ghost var left := rings - {userId};
      RemovedAccounts(users, rings, kdf, userId, after, left);
      RemovedBacked(sessions.sessions, sessions.issued, users, rings, userId, after, left);
      users, rings := after, left;
    }

    method Remove(userId: Id)
      requires Valid() && userId in users
      requires users[userId].isAdmin ==> Spare(users)
      modifies `users, `rings, sessions`sessions, sessions.Keys()
      ensures Valid() && users == old(users) - {userId} && rings == old(rings) - {userId} && users != map[]
      ensures sessions.Scrubbed()
      ensures sessions.sessions == SessionsWithout(old(sessions.sessions), userId)
    {
      ghost var live := sessions.sessions;
      sessions.DeleteByUser(userId);
      FewerBacked(live, sessions.sessions);
      DeleteUser(userId);
    }

    /** Removes an account and its sessions; never one's own, and never the last administrator's. */
    method AdminDeleteUser(actor: Session, userId: Id) returns (r: Result<()>)
      requires Valid() && sessions.Live(actor)
      modifies `users, `rings, sessions`sessions, sessions.Keys()
      ensures Valid() && users != map[] && (r.Ok? ==> sessions.Scrubbed())
      ensures if !actor.isAdmin then r == Err(Forbidden)
              else if actor.userId == userId then r == Err(CannotDeleteSelf)
              else if userId !in old(users) then r == Err(NotFound)
              else if old(users)[userId].isAdmin && !Spare(old(users)) then r == Err(LastAdmin)
              else r == Ok(())
      ensures r == Err(LastAdmin) ==> OtherAdmin(old(users), userId) && old(users)[userId].status != ACTIVE
      ensures users == if r.Err? then old(users) else old(users) - {userId}
      ensures rings == if r.Err? then old(rings) else old(rings) - {userId}
      ensures sessions.sessions
        == if r.Err? then old(sessions.sessions) else SessionsWithout(old(sessions.sessions), userId)
    {
      LiveIsBacked(actor);
      if !actor.isAdmin { return Err(Forbidden); }
      if actor.userId == userId { return Err(CannotDeleteSelf); }
      if userId !in users { return Err(NotFound); }
      if users[userId].isAdmin {
        var spare := EnsureNotLastAdmin();
        if !spare { return Err(LastAdmin); }
      }
      Remove(userId);
      r := Ok(());
    }

    /** Stores an envelope of another data key, and ends every session that was on the old one. */
    method Replace(userId: Id, u: User, ghost k: Keyring)
      requires Valid() && userId in users && Envelope(u, k) && u.kdf == kdf
      requires u.username == users[userId].username && u.isAdmin == users[userId].isAdmin
        && u.status == users[userId].status
      modifies `users, `rings, sessions`sessions, sessions.Keys()
      ensures Valid() && users == old(users)[userId := u] && rings == old(rings)[userId := k] && sessions.Scrubbed()
      ensures sessions.sessions == SessionsWithout(old(sessions.sessions), userId)
    {
      RekeyedAccounts(users, rings, kdf, userId, u, k);
      OthersBacked(sessions.sessions, sessions.issued, users, rings, users[userId := u], rings[userId := k], userId);
      UpdateUserKeys(userId, u);
      rings := rings[userId := k];
      sessions.DeleteByUser(userId);
    }

    method Reprovision(userId: Id, password: string, drawn: Bytes)
      requires Valid() && userId in users && |drawn| == KEY
      modifies `users, `rings, sessions`sessions, sessions.Keys()
      ensures Valid() && OnlyKeysChanged(userId) && users[userId].mustChange
      ensures rings == old(rings)[userId := Keyring(password, None, drawn)] && sessions.Scrubbed()
      ensures sessions.sessions == SessionsWithout(old(sessions.sessions), userId)
    {
      var u := users[userId];
      assert Envelope(u, rings[userId]);
      var pwSalt, pwWrapped := WrapWithSecret(drawn, password);
      u := WithPassword(u, pwSalt, pwWrapped, kdf, true).(recSalt := [], recWrapped := None);
      Replace(userId, u, Keyring(password, None, drawn));
    }

    /** The data key drawn, under a temporary password: nothing the user knew before opens anything any more, and
        nothing opens to the old key unless that very key was drawn again. */
    method AdminResetUser(actor: Session, userId: Id, newTempPassword: string, drawn: Bytes) returns (r: Result<()>)
      requires Valid() && sessions.Live(actor) && |drawn| == KEY
      modifies `users, `rings, sessions`sessions, sessions.Keys()
      ensures Valid() && (r.Ok? ==> sessions.Scrubbed())
      ensures if !actor.isAdmin then r == Err(Forbidden)
              else if !ValidPassword(newTempPassword) then r == Err(WeakPassword)
              else if userId !in old(users) then r == Err(NotFound)
              else r == Ok(())
      ensures r.Err? ==> users == old(users) && rings == old(rings) && sessions.sessions == old(sessions.sessions)
      ensures r.Ok? ==>
        && OnlyKeysChanged(userId) && users[userId].mustChange
        && rings == old(rings)[userId := Keyring(newTempPassword, None, drawn)]
        && userId in old(rings) && (drawn != old(rings)[userId].dek ==> rings[userId].dek != old(rings)[userId].dek)
        && sessions.sessions == SessionsWithout(old(sessions.sessions), userId)
    {
      if !actor.isAdmin { return Err(Forbidden); }
      if !ValidPassword(newTempPassword) { return Err(WeakPassword); }
      if userId !in users { return Err(NotFound); }
      Reprovision(userId, newTempPassword, drawn);
      r := Ok(());
    }
  }
}
