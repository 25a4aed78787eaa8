/**
 * The administrator authentication of pritunl/utils.py: `check_session`
 * (a signed request, or else a cookie session) and `check_auth` (password
 * login behind a per-address attempt counter).
 *
 * The flask globals become parameters: the request is a `Request` object,
 * the session a `Session` object, `app_server.ssl` a flag, `int(time.time())`
 * the integer `now`. The keyed hash (HMAC-SHA256 then base64) is the
 * function `sign(secret, message)`, `Administrator.test_password` the
 * function `testPassword(admin, password)`, and the administrator lookups
 * are the maps of an `AdminStore`.
 */
module Auth {
  import opened Wrappers
  import opened PyStr
  import opened Cache

  datatype Admin = Admin(id: string, username: string, token: string, secret: string)

  /** `Administrator.find_user(token=…)`, `get_user(id=…)`, `find_user(username=…)`. */
  datatype AdminStore = AdminStore(
    byToken: map<string, Admin>,
    byId: map<string, Admin>,
    byUsername: map<string, Admin>)

  /** AUTH_TIME_WINDOW, AUTH_SIG_STRING_MAX_LEN and SESSION_TIMEOUT (0 switches the timeout off). */
  datatype Config = Config(authTimeWindow: nat, sigStringMaxLen: nat, sessionTimeout: nat)

  /** The exceptions that leave the two entry points. */
  datatype PyError = KeyError | TypeError | Forbidden

  /** A Python call: a returned value or a raised exception. */
  datatype Outcome<T> = Return(value: T) | Raise(error: PyError)

  const NonceMaxLen: nat := 32
  const AttemptLimit: nat := 10
  const AttemptTtl: nat := 20

  /** `headers.get(name, None)`. */
  function HeaderGet(headers: map<string, string>, name: string): Option<string> {
    if name in headers then Some(headers[name]) else None
  }

  /** Python truth of an optional string: present and non-empty. */
  predicate Truthy(h: Option<string>) {
    h.Some? && h.value != ""
  }

  /** The cache key that marks a nonce as used. */
  function NonceKey(nonce: string): string {
    "auth_nonce-" + nonce
  }

  /** `int(AUTH_TIME_WINDOW * 2.1)` for a whole number of seconds. */
  function NonceTtl(window: nat): nat {
    window * 21 / 10
  }

  /** The message that is signed: the fields joined by '&', the body only when non-empty. */
  function SigningString(token: string, timestamp: string, nonce: string, httpMethod: string,
                         path: string, data: string): string
  {
    Join([token, timestamp, nonce, httpMethod, path] + (if data != "" then [data] else []), '&')
  }

  /** The decision of the signed branch: refused, or granted with the nonce record to write. */
  datatype SignedResult = SignedDenied | SignedGranted(admin: Admin, key: string, stamp: string)

  /**
   * The signed-request branch of `check_session` as a decision on the
   * request and the cache contents before the call.
   */
  function SignedCheck(cfg: Config, store: AdminStore, sign: (string, string) -> string,
                       headers: map<string, string>, httpMethod: string, path: string, data: string,
                       now: int, entries: map<string, Entry>): SignedResult
  {
    var token := HeaderGet(headers, "Auth-Token");
    var timestamp := HeaderGet(headers, "Auth-Timestamp");
    var nonce := HeaderGet(headers, "Auth-Nonce");
    var signature := HeaderGet(headers, "Auth-Signature");
    if !Truthy(token) || !Truthy(timestamp) || !Truthy(nonce) || !Truthy(signature) then SignedDenied
    else
      var n := Prefix(nonce.value, NonceMaxLen);
      match ParseInt(timestamp.value)
      case None => SignedDenied
      case Some(ts) =>
        if Abs(ts - now) > cfg.authTimeWindow then SignedDenied
        else if NonceKey(n) in entries then SignedDenied
        else if token.value !in store.byToken then SignedDenied
        else
          var admin := store.byToken[token.value];
          var message := SigningString(token.value, timestamp.value, n, httpMethod, path, data);
          if |message| > cfg.sigStringMaxLen then SignedDenied
          else if signature.value != sign(admin.secret, message) then SignedDenied
          else SignedGranted(admin, NonceKey(n), timestamp.value)
  }

  /** A value stored in the flask session. */
  datatype SessionValue = Str(s: string) | Int(i: int)

  /** `session.get(name)`. */
  function SessionGet(session: map<string, SessionValue>, name: string): Option<SessionValue> {
    if name in session then Some(session[name]) else None
  }

  /** Python truth of an optional session value. */
  predicate TruthyValue(v: Option<SessionValue>) {
    match v
    case None => false
    case Some(Str(s)) => s != ""
    case Some(Int(i)) => i != 0
  }

  /** `Administrator.get_user(id=admin_id)`: ids are strings, any other value finds nobody. */
  function GetUser(store: AdminStore, adminId: SessionValue): Option<Admin> {
    if adminId.Str? && adminId.s in store.byId then Some(store.byId[adminId.s]) else None
  }

  /** The remote address as it compares with a session value. */
  function AddrValue(remoteAddr: Option<string>): Option<SessionValue> {
    if remoteAddr.Some? then Some(Str(remoteAddr.value)) else None
  }

  /** The decision of the session branch: granted, refused (clearing the session or not), or raised. */
  datatype SessionResult = SessionGranted(admin: Admin) | SessionDenied(cleared: bool) | SessionRaised(error: PyError)

  /**
   * The session branch of `check_session`. Reading `session['timestamp']`
   * raises KeyError when it is missing and TypeError when it is a string.
   */
  function SessionCheck(cfg: Config, store: AdminStore, ssl: bool, now: int,
                        remoteAddr: Option<string>, session: map<string, SessionValue>): SessionResult
  {
    if session == map[] then SessionDenied(false)
    else
      var adminId := SessionGet(session, "admin_id");
      if !TruthyValue(adminId) then SessionDenied(false)
      else match GetUser(store, adminId.value)
        case None => SessionDenied(false)
        case Some(admin) =>
          if !ssl && SessionGet(session, "source") != AddrValue(remoteAddr) then SessionDenied(true)
          else if cfg.sessionTimeout == 0 then SessionGranted(admin)
          else match SessionGet(session, "timestamp")
            case None => SessionRaised(KeyError)
            case Some(Str(_)) => SessionRaised(TypeError)
            case Some(Int(t)) => if now - t > cfg.sessionTimeout then SessionDenied(true) else SessionGranted(admin)
  }

  /** The flask request: what it carries, and the administrator the check attaches. */
  class Request {
    const headers: map<string, string>
    const httpMethod: string
    const path: string
    const data: string
    /** `get_remote_addr()`. */
    const remoteAddr: Option<string>
    var administrator: Option<Admin>

    constructor (headers: map<string, string>, httpMethod: string, path: string, data: string,
                 remoteAddr: Option<string>)
      ensures this.headers == headers && this.httpMethod == httpMethod && this.path == path
      ensures this.data == data && this.remoteAddr == remoteAddr
      ensures administrator == None
    {
      this.headers := headers;
      this.httpMethod := httpMethod;
      this.path := path;
      this.data := data;
      this.remoteAddr := remoteAddr;
      administrator := None;
    }
  }

  /** The flask session of the request. */
  class Session {
    var entries: map<string, SessionValue>

    constructor (entries: map<string, SessionValue>)
      ensures this.entries == entries
    {
      this.entries := entries;
    }

    /** `session.clear()`. */
    method Clear()
      modifies this
      ensures entries == map[]
    {
      entries := map[];
    }
  }

  /**
   * The signed branch: refuse at the first failing check, leaving the cache
   * and the request as they were; on success write the nonce record (the
   * TTL first, then the value) and attach the administrator.
   */
  method VerifySigned(cfg: Config, store: AdminStore, sign: (string, string) -> string,
                      now: int, req: Request, cache: CacheDb) returns (granted: bool)
    requires cache.Valid()
    modifies req, cache
    ensures cache.Valid()
    ensures var d := SignedCheck(cfg, store, sign, req.headers, req.httpMethod, req.path, req.data, now, old(cache.entries));
      && granted == d.SignedGranted?
      && (if d.SignedGranted? then
            && cache.entries == old(cache.entries)[d.key := Text(d.stamp)]
            && cache.ttl == (if cache.keyedTtl then old(cache.ttl) else old(cache.ttl)[d.key := NonceTtl(cfg.authTimeWindow)])
            && cache.writes == old(cache.writes) + [ExpireWrite(d.key, NonceTtl(cfg.authTimeWindow)), SetWrite(d.key)]
            && req.administrator == Some(d.admin)
          else
            && cache.entries == old(cache.entries) && cache.ttl == old(cache.ttl)
            && cache.writes == old(cache.writes)
            && req.administrator == old(req.administrator))
  {
    var token := HeaderGet(req.headers, "Auth-Token");
    var timestamp := HeaderGet(req.headers, "Auth-Timestamp");
    var nonce := HeaderGet(req.headers, "Auth-Nonce");
    var signature := HeaderGet(req.headers, "Auth-Signature");
    if !Truthy(token) || !Truthy(timestamp) || !Truthy(nonce) || !Truthy(signature) {
      return false;
    }
    var n := Prefix(nonce.value, NonceMaxLen);
    var ts := ParseInt(timestamp.value);
    if ts.None? || Abs(ts.value - now) > cfg.authTimeWindow {
      return false;
    }
    var key := NonceKey(n);
    var used := cache.Exists(key);
    if used {
      return false;
    }
    if token.value !in store.byToken {
      return false;
    }
    var admin := store.byToken[token.value];
    var message := SigningString(token.value, timestamp.value, n, req.httpMethod, req.path, req.data);
    if |message| > cfg.sigStringMaxLen {
      return false;
    }
    if signature.value != sign(admin.secret, message) {
      return false;
    }
    cache.Expire(key, NonceTtl(cfg.authTimeWindow));
    cache.Set(key, timestamp.value);
    req.administrator := Some(admin);
    granted := true;
  }

  /**
   * The session branch: refuse without touching anything when there is no
   * session or no known administrator; clear the session on an address
   * mismatch or an expired session; otherwise attach the administrator.
   */
  method VerifySession(cfg: Config, store: AdminStore, ssl: bool, now: int,
                       req: Request, session: Session) returns (r: Outcome<bool>)
    modifies req, session
    ensures var d := SessionCheck(cfg, store, ssl, now, req.remoteAddr, old(session.entries));
      && r == (match d
               case SessionGranted(_) => Return(true)
               case SessionDenied(_) => Return(false)
               case SessionRaised(e) => Raise(e))
      && session.entries == (if d.SessionDenied? && d.cleared then map[] else old(session.entries))
      && req.administrator == (if d.SessionGranted? then Some(d.admin) else old(req.administrator))
  {
    if session.entries == map[] {
      return Return(false);
    }
    var adminId := SessionGet(session.entries, "admin_id");
    if !TruthyValue(adminId) {
      return Return(false);
    }
    var admin := GetUser(store, adminId.value);
    if admin.None? {
      return Return(false);
    }
    if !ssl && SessionGet(session.entries, "source") != AddrValue(req.remoteAddr) {
      session.Clear();
      return Return(false);
    }
    if cfg.sessionTimeout != 0 {
      var stamp := SessionGet(session.entries, "timestamp");
      if stamp.None? {
        return Raise(KeyError);
      }
      if stamp.value.Str? {
        return Raise(TypeError);
      }
      if now - stamp.value.i > cfg.sessionTimeout {
        session.Clear();
        return Return(false);
      }
    }
    req.administrator := admin;
    r := Return(true);
  }

  /** `check_session`: a non-empty Auth-Token header selects the signed branch, with no fallback. */
  method CheckSession(cfg: Config, store: AdminStore, sign: (string, string) -> string, ssl: bool,
                      now: int, req: Request, session: Session, cache: CacheDb) returns (r: Outcome<bool>)
    requires cache.Valid()
    modifies req, session, cache
    ensures cache.Valid()
    ensures Truthy(HeaderGet(req.headers, "Auth-Token")) ==>
      var d := SignedCheck(cfg, store, sign, req.headers, req.httpMethod, req.path, req.data, now, old(cache.entries));
      && r == Return(d.SignedGranted?)
      && session.entries == old(session.entries)
      && (if d.SignedGranted? then
            && cache.entries == old(cache.entries)[d.key := Text(d.stamp)]
            && cache.ttl == (if cache.keyedTtl then old(cache.ttl) else old(cache.ttl)[d.key := NonceTtl(cfg.authTimeWindow)])
            && cache.writes == old(cache.writes) + [ExpireWrite(d.key, NonceTtl(cfg.authTimeWindow)), SetWrite(d.key)]
            && req.administrator == Some(d.admin)
          else
            && cache.entries == old(cache.entries) && cache.ttl == old(cache.ttl)
            && cache.writes == old(cache.writes)
            && req.administrator == old(req.administrator))
    ensures !Truthy(HeaderGet(req.headers, "Auth-Token")) ==>
      var d := SessionCheck(cfg, store, ssl, now, req.remoteAddr, old(session.entries));
      && r == (match d
               case SessionGranted(_) => Return(true)
               case SessionDenied(_) => Return(false)
               case SessionRaised(e) => Raise(e))
      && session.entries == (if d.SessionDenied? && d.cleared then map[] else old(session.entries))
      && req.administrator == (if d.SessionGranted? then Some(d.admin) else old(req.administrator))
      && cache.entries == old(cache.entries) && cache.ttl == old(cache.ttl) && cache.writes == old(cache.writes)
  {
    if Truthy(HeaderGet(req.headers, "Auth-Token")) {
      var granted := VerifySigned(cfg, store, sign, now, req, cache);
      r := Return(granted);
    } else {
      r := VerifySession(cfg, store, ssl, now, req, session);
    }
  }

  /** The cache key of the attempt counter for a remote address. */
  function AttemptKey(remoteAddr: string): string {
    "ip_" + remoteAddr
  }

  /** `count and count > 10`: the counter refuses further attempts. */
  predicate Throttled(count: nat) {
    count != 0 && count > AttemptLimit
  }

  /** The password check after the counter: the administrator, or None for an unknown user or a wrong password. */
  function Login(store: AdminStore, testPassword: (Admin, string) -> bool,
                 username: string, password: string): (r: Option<Admin>)
    ensures r.Some? ==> username in store.byUsername && r.value == store.byUsername[username]
    ensures r.Some? ==> testPassword(r.value, password)
    ensures r.None? <==> username !in store.byUsername || !testPassword(store.byUsername[username], password)
  {
    if username in store.byUsername && testPassword(store.byUsername[username], password)
    then Some(store.byUsername[username])
    else None
  }

  /**
   * `check_auth`: with a remote address, abort with 403 once the counter
   * holds more than 10 entries (recording nothing), else record one attempt,
   * giving a new counter a 20-second TTL; then the password check.
   */
  method CheckAuth(store: AdminStore, testPassword: (Admin, string) -> bool,
                   username: string, password: string, remoteAddr: Option<string>,
                   cache: CacheDb) returns (r: Outcome<Option<Admin>>)
    requires cache.Valid()
    modifies cache
    ensures cache.Valid()
    ensures !Truthy(remoteAddr) ==>
      && r == Return(Login(store, testPassword, username, password))
      && cache.entries == old(cache.entries) && cache.ttl == old(cache.ttl) && cache.writes == old(cache.writes)
    ensures Truthy(remoteAddr) ==>
      var key := AttemptKey(remoteAddr.value);
      if Throttled(|ListItems(old(cache.entries), key)|) then
        && r == Raise(Forbidden)
        && cache.entries == old(cache.entries) && cache.ttl == old(cache.ttl) && cache.writes == old(cache.writes)
      else
        && r == Return(Login(store, testPassword, username, password))
        && cache.entries == old(cache.entries)[key := List(ListItems(old(cache.entries), key) + [""])]
        && |ListItems(cache.entries, key)| == |ListItems(old(cache.entries), key)| + 1
        && cache.ttl == (if key in old(cache.entries) then old(cache.ttl) else old(cache.ttl)[key := AttemptTtl])
        && cache.writes == old(cache.writes) + [PushWrite(key)]
             + (if key in old(cache.entries) then [] else [ExpireWrite(key, AttemptTtl)])
  {
    if Truthy(remoteAddr) {
      var key := AttemptKey(remoteAddr.value);
      var count := cache.ListLength(key);
      if Throttled(count) {
        return Raise(Forbidden);
      }
      var existed := cache.Exists(key);
      cache.ListRPush(key, "");
      if !existed {
        cache.Expire(key, AttemptTtl);
      }
    }
    r := Return(Login(store, testPassword, username, password));
  }

  /** A granted signed request passed every check, and the record names its truncated nonce. */
  lemma SignedGrantedConditions(cfg: Config, store: AdminStore, sign: (string, string) -> string,
                                headers: map<string, string>, httpMethod: string, path: string, data: string,
                                now: int, entries: map<string, Entry>)
    requires SignedCheck(cfg, store, sign, headers, httpMethod, path, data, now, entries).SignedGranted?
    ensures var d := SignedCheck(cfg, store, sign, headers, httpMethod, path, data, now, entries);
      var token, timestamp := headers["Auth-Token"], headers["Auth-Timestamp"];
      var nonce, signature := headers["Auth-Nonce"], headers["Auth-Signature"];
      && "Auth-Token" in headers && "Auth-Timestamp" in headers
      && "Auth-Nonce" in headers && "Auth-Signature" in headers
      && token != "" && nonce != "" && signature != ""
      && ParseInt(timestamp).Some? && Abs(ParseInt(timestamp).value - now) <= cfg.authTimeWindow
      && d.key == NonceKey(Prefix(nonce, NonceMaxLen)) && d.key !in entries
      && token in store.byToken && d.admin == store.byToken[token]
      && d.stamp == timestamp
      && |SigningString(token, timestamp, Prefix(nonce, NonceMaxLen), httpMethod, path, data)| <= cfg.sigStringMaxLen
      && signature == sign(d.admin.secret, SigningString(token, timestamp, Prefix(nonce, NonceMaxLen), httpMethod, path, data))
  {
  }

  /** A signed request that passes every check is granted, with the record of its truncated nonce. */
  lemma SignedGrantedIf(cfg: Config, store: AdminStore, sign: (string, string) -> string,
                        headers: map<string, string>, httpMethod: string, path: string, data: string,
                        now: int, entries: map<string, Entry>)
    requires "Auth-Token" in headers && "Auth-Timestamp" in headers
    requires "Auth-Nonce" in headers && "Auth-Signature" in headers
    requires var token, timestamp := headers["Auth-Token"], headers["Auth-Timestamp"];
      var nonce, signature := headers["Auth-Nonce"], headers["Auth-Signature"];
      && token != "" && nonce != "" && signature != ""
      && ParseInt(timestamp).Some? && Abs(ParseInt(timestamp).value - now) <= cfg.authTimeWindow
      && NonceKey(Prefix(nonce, NonceMaxLen)) !in entries
      && token in store.byToken
      && |SigningString(token, timestamp, Prefix(nonce, NonceMaxLen), httpMethod, path, data)| <= cfg.sigStringMaxLen
      && signature == sign(store.byToken[token].secret,
                           SigningString(token, timestamp, Prefix(nonce, NonceMaxLen), httpMethod, path, data))
    ensures SignedCheck(cfg, store, sign, headers, httpMethod, path, data, now, entries)
         == SignedGranted(store.byToken[headers["Auth-Token"]], NonceKey(Prefix(headers["Auth-Nonce"], NonceMaxLen)),
                          headers["Auth-Timestamp"])
  {
  }

  /**
   * Once the nonce record of a granted request is in the cache, a request
   * whose nonce has the same first 32 characters is refused, whatever its
   * other headers and whenever it arrives.
   */
  lemma ReplayRefused(cfg: Config, store: AdminStore, sign: (string, string) -> string,
                      headers: map<string, string>, httpMethod: string, path: string, data: string,
                      now: int, entries: map<string, Entry>,
                      headers2: map<string, string>, httpMethod2: string, path2: string, data2: string,
                      now2: int, entries2: map<string, Entry>)
    requires SignedCheck(cfg, store, sign, headers, httpMethod, path, data, now, entries).SignedGranted?
    requires SignedCheck(cfg, store, sign, headers, httpMethod, path, data, now, entries).key in entries2
    requires "Auth-Nonce" in headers2
    requires Prefix(headers2["Auth-Nonce"], NonceMaxLen) == Prefix(headers["Auth-Nonce"], NonceMaxLen)
    ensures SignedCheck(cfg, store, sign, headers2, httpMethod2, path2, data2, now2, entries2) == SignedDenied
  {
    SignedGrantedConditions(cfg, store, sign, headers, httpMethod, path, data, now, entries);
  }

  /** The identical request, sent again after it was granted and recorded, is refused. */
  lemma IdenticalReplayRefused(cfg: Config, store: AdminStore, sign: (string, string) -> string,
                               headers: map<string, string>, httpMethod: string, path: string, data: string,
                               now: int, later: int, entries: map<string, Entry>)
    requires SignedCheck(cfg, store, sign, headers, httpMethod, path, data, now, entries).SignedGranted?
    ensures var d := SignedCheck(cfg, store, sign, headers, httpMethod, path, data, now, entries);
      SignedCheck(cfg, store, sign, headers, httpMethod, path, data, later, entries[d.key := Text(d.stamp)]) == SignedDenied
  {
    var d := SignedCheck(cfg, store, sign, headers, httpMethod, path, data, now, entries);
    ReplayRefused(cfg, store, sign, headers, httpMethod, path, data, now, entries,
                  headers, httpMethod, path, data, later, entries[d.key := Text(d.stamp)]);
  }

  /**
   * A timestamp passes the window check only during 2 * AUTH_TIME_WINDOW
   * seconds, which the nonce record's TTL covers: while the same request
   * could still pass on time, its record is still due to be present.
   */
  lemma NonceTtlCoversWindow(window: nat, stamp: int, first: int, later: int)
    requires Abs(stamp - first) <= window && Abs(stamp - later) <= window
    requires first <= later
    ensures later - first <= NonceTtl(window)
    ensures window >= 10 ==> later - first < NonceTtl(window)
  {
    assert later - first <= 2 * window;
    assert 2 * window <= window * 21 / 10;
    if window >= 10 {
      assert 2 * window + 1 <= window * 21 / 10;
    }
  }

  /** Below 10 seconds the TTL is exactly twice the window, so a replay can arrive as the record lapses. */
  lemma NonceTtlTight(window: nat)
    requires window < 10
    ensures NonceTtl(window) == 2 * window
    ensures var stamp, first, later := window, 0, 2 * window;
      Abs(stamp - first) <= window && Abs(stamp - later) <= window && later - first == NonceTtl(window)
  {
  }

  /**
   * With no field containing '&', the signing string determines all six
   * fields, including whether a body was sent.
   */
  lemma SigningStringInjective(token: string, timestamp: string, nonce: string, httpMethod: string,
                               path: string, data: string,
                               token2: string, timestamp2: string, nonce2: string, httpMethod2: string,
                               path2: string, data2: string)
    requires Free(token, '&') && Free(timestamp, '&') && Free(nonce, '&')
    requires Free(httpMethod, '&') && Free(path, '&') && Free(data, '&')
    requires Free(token2, '&') && Free(timestamp2, '&') && Free(nonce2, '&')
    requires Free(httpMethod2, '&') && Free(path2, '&') && Free(data2, '&')
    requires SigningString(token, timestamp, nonce, httpMethod, path, data)
          == SigningString(token2, timestamp2, nonce2, httpMethod2, path2, data2)
    ensures token == token2 && timestamp == timestamp2 && nonce == nonce2
    ensures httpMethod == httpMethod2 && path == path2 && data == data2
  {
    var a := [token, timestamp, nonce, httpMethod, path] + (if data != "" then [data] else []);
    var b := [token2, timestamp2, nonce2, httpMethod2, path2] + (if data2 != "" then [data2] else []);
    JoinInjective(a, b, '&');
    assert a[..5] == b[..5];
    if data != "" || data2 != "" {
      assert |a| == |b| == 6 && a[5] == b[5];
    }
  }

  /**
   * Without that condition the fields are ambiguous: a path "p&d" with no
   * body signs the same string as the path "p" with the body "d".
   */
  lemma SigningStringAmbiguous(token: string, timestamp: string, nonce: string, httpMethod: string,
                               path: string, data: string)
    requires data != ""
    ensures SigningString(token, timestamp, nonce, httpMethod, path + "&" + data, "")
         == SigningString(token, timestamp, nonce, httpMethod, path, data)
  {
    var head := [token, timestamp, nonce, httpMethod];
    assert [token, timestamp, nonce, httpMethod, path + "&" + data] + [] == head + [path + "&" + data];
    assert [token, timestamp, nonce, httpMethod, path] + [data] == (head + [path]) + [data];
    JoinSnoc(head, path + "&" + data, '&');
    JoinSnoc(head, path, '&');
    JoinSnoc(head + [path], data, '&');
  }

  /** The nonce records and the attempt counters live under different keys. */
  lemma KeysDisjoint(nonce: string, remoteAddr: string)
    ensures NonceKey(nonce) != AttemptKey(remoteAddr)
  {
    assert NonceKey(nonce)[0] == 'a' && AttemptKey(remoteAddr)[0] == 'i';
  }

  /** The session branch refuses without clearing when it cannot name a known administrator. */
  lemma SessionUnknownKept(cfg: Config, store: AdminStore, ssl: bool, now: int,
                           remoteAddr: Option<string>, session: map<string, SessionValue>)
    requires session == map[] || !TruthyValue(SessionGet(session, "admin_id"))
          || GetUser(store, session["admin_id"]).None?
    ensures SessionCheck(cfg, store, ssl, now, remoteAddr, session) == SessionDenied(false)
  {
  }

  /** The session is cleared only for an address mismatch without SSL or an expired timestamp. */
  lemma SessionClearedWhen(cfg: Config, store: AdminStore, ssl: bool, now: int,
                           remoteAddr: Option<string>, session: map<string, SessionValue>)
    requires SessionCheck(cfg, store, ssl, now, remoteAddr, session) == SessionDenied(true)
    ensures "admin_id" in session && GetUser(store, session["admin_id"]).Some?
    ensures (!ssl && SessionGet(session, "source") != AddrValue(remoteAddr))
         || (cfg.sessionTimeout != 0 && "timestamp" in session && session["timestamp"].Int?
             && now - session["timestamp"].i > cfg.sessionTimeout)
  {
  }

  /**
   * A known administrator whose session comes from another address without
   * SSL, or from the right address (or under SSL) but with an expired integer
   * timestamp, is refused and the session cleared.
   */
  lemma SessionClearedIf(cfg: Config, store: AdminStore, ssl: bool, now: int,
                         remoteAddr: Option<string>, session: map<string, SessionValue>)
    requires TruthyValue(SessionGet(session, "admin_id")) && GetUser(store, session["admin_id"]).Some?
    requires || (!ssl && SessionGet(session, "source") != AddrValue(remoteAddr))
             || ((ssl || SessionGet(session, "source") == AddrValue(remoteAddr))
                 && cfg.sessionTimeout != 0 && "timestamp" in session && session["timestamp"].Int?
                 && now - session["timestamp"].i > cfg.sessionTimeout)
    ensures SessionCheck(cfg, store, ssl, now, remoteAddr, session) == SessionDenied(true)
  {
  }

  /** A granted session names a known administrator, from the same address unless SSL is on, within the timeout. */
  lemma SessionGrantedMeans(cfg: Config, store: AdminStore, ssl: bool, now: int,
                            remoteAddr: Option<string>, session: map<string, SessionValue>)
    requires SessionCheck(cfg, store, ssl, now, remoteAddr, session).SessionGranted?
    ensures "admin_id" in session && session["admin_id"].Str?
    ensures var id := session["admin_id"].s;
      id != "" && id in store.byId && SessionCheck(cfg, store, ssl, now, remoteAddr, session).admin == store.byId[id]
    ensures ssl || SessionGet(session, "source") == AddrValue(remoteAddr)
    ensures cfg.sessionTimeout == 0
         || ("timestamp" in session && session["timestamp"].Int? && now - session["timestamp"].i <= cfg.sessionTimeout)
  {
  }

  /** With SSL on the remote address plays no part. */
  lemma SessionSslIgnoresAddress(cfg: Config, store: AdminStore, now: int,
                                 remoteAddr: Option<string>, remoteAddr2: Option<string>,
                                 session: map<string, SessionValue>)
    ensures SessionCheck(cfg, store, true, now, remoteAddr, session) == SessionCheck(cfg, store, true, now, remoteAddr2, session)
  {
  }

  /** Only the timeout reads `session['timestamp']`, so with it off nothing is raised. */
  lemma SessionRaisesOnlyWithTimeout(cfg: Config, store: AdminStore, ssl: bool, now: int,
                                     remoteAddr: Option<string>, session: map<string, SessionValue>)
    requires SessionCheck(cfg, store, ssl, now, remoteAddr, session).SessionRaised?
    ensures cfg.sessionTimeout != 0
    ensures SessionCheck(cfg, store, ssl, now, remoteAddr, session).error
         == if "timestamp" in session then TypeError else KeyError
  {
  }

  /**
   * How many of `n` consecutive `check_auth` calls from one address get past
   * the counter, starting from `count` recorded attempts, with no lapse of
   * the counter's TTL in between: a refused call records nothing.
   */
  function Passes(count: nat, n: nat): nat
    decreases n
  {
    if n == 0 then 0
    else if Throttled(count) then Passes(count, n - 1)
    else 1 + Passes(count + 1, n - 1)
  }

  /** From `count` recorded attempts, at most 11 - count more get through before the counter lapses. */
  lemma {:induction false} PassesBound(count: nat, n: nat)
    ensures Passes(count, n) == if count > AttemptLimit then 0
                                else if n <= AttemptLimit + 1 - count then n
                                else AttemptLimit + 1 - count
    decreases n
  {
    if n > 0 {
      if Throttled(count) {
        PassesBound(count, n - 1);
      } else {
        PassesBound(count + 1, n - 1);
      }
    }
  }

  /** A fresh counter lets 11 attempts through in one TTL period, and no more. */
  lemma FreshCounterAllowsEleven(n: nat)
    ensures Passes(0, n) == if n <= 11 then n else 11
  {
    PassesBound(0, n);
  }

  /**
   * `n` consecutive `check_auth` calls from one address, with no lapse of
   * the counter in between: the number that get past the counter is
   * `Passes` of the counter's length before the first call.
   */
  method CheckAuthRepeated(store: AdminStore, testPassword: (Admin, string) -> bool,
                           username: string, password: string, remoteAddr: string, n: nat,
                           cache: CacheDb) returns (passed: nat)
    requires cache.Valid() && remoteAddr != ""
    modifies cache
    ensures cache.Valid()
    ensures passed == Passes(|ListItems(old(cache.entries), AttemptKey(remoteAddr))|, n)
  {
    var key := AttemptKey(remoteAddr);
    passed := 0;
    var i := 0;
    while i < n
      invariant 0 <= i <= n
      invariant cache.Valid()
      invariant passed + Passes(|ListItems(cache.entries, key)|, n - i)
             == Passes(|ListItems(old(cache.entries), key)|, n)
    {
      var r := CheckAuth(store, testPassword, username, password, Some(remoteAddr), cache);
      if r != Raise(Forbidden) {
        passed := passed + 1;
      }
      i := i + 1;
    }
  }

  /**
   * Once the counter's TTL has run out, the next `check_auth` from that
   * address gets through and starts a new counter of one entry with a fresh
   * 20-second TTL.
   */
  method CheckAuthAfterLapse(store: AdminStore, testPassword: (Admin, string) -> bool,
                             username: string, password: string, remoteAddr: string,
                             cache: CacheDb) returns (r: Outcome<Option<Admin>>)
    requires cache.Valid() && remoteAddr != "" && AttemptKey(remoteAddr) in cache.ttl
    modifies cache
    ensures cache.Valid()
    ensures r == Return(Login(store, testPassword, username, password))
    ensures ListItems(cache.entries, AttemptKey(remoteAddr)) == [""]
    ensures AttemptKey(remoteAddr) in cache.ttl && cache.ttl[AttemptKey(remoteAddr)] == AttemptTtl
  {
    cache.Lapse(AttemptKey(remoteAddr));
    r := CheckAuth(store, testPassword, username, password, Some(remoteAddr), cache);
  }
}
