/**
 Token reuse in `birdfy_api.py`: a cached token is validated, refreshed when the cloud
 rejects it, and only then replaced by a fresh login, which the cloud announces by e-mail.
 The cloud's replies and the file system's are inputs.
 */
module AuthResume {
  import opened Wrappers

  /** A JSON object whose values are strings or null. */
  type Auth = map<string, Option<string>>

  const TOKEN := "token"
  const ACCESS_TOKEN := "accessToken"
  const REFRESH_TOKEN := "refreshToken"
  const CACHED_EMAIL := "_cached_email"

  /** `dict.get`, which does not tell a null from a missing key. */
  function Get(a: Auth, key: string): Option<string> {
    if key in a then a[key] else None
  }

  predicate Truthy(a: Auth, key: string) {
    Get(a, key).Some? && Get(a, key).value != ""
  }

  function GetOrEmpty(a: Auth, key: string): string {
    if Get(a, key).Some? then Get(a, key).value else ""
  }

  datatype DeviceReply = Devices | Expired | OtherError

  /** One refresh endpoint: no usable answer, or a code and the data it wraps. */
  datatype ShapeReply = NoAnswer | Answer(code: int, data: Auth)

  datatype LoginReply = Refused | Granted(data: Auth)

  /** Writing the cache file: done, not begun, or broken off, which leaves nothing readable. */
  datatype Save = Saved | LeftAsIs | Truncated

  /** All replies that one call of `login_or_resume` may meet. */
  datatype World = World(
    first: DeviceReply, shapes: seq<ShapeReply>, refreshSave: Save, afterRefresh: DeviceReply,
    cleared: bool, login: LoginReply, loginSave: Save, afterLogin: DeviceReply)

  datatype Config = Config(noCache: bool, noRefresh: bool)

  /** The readable content of the cache file. */
  type Cache = Option<Auth>

  function Load(config: Config, file: Cache): Option<Auth> {
    if config.noCache || file.None? || !Truthy(file.value, TOKEN) then None else file
  }

  /** A cache is usable for an account that it does not name otherwise. */
  predicate Usable(config: Config, file: Cache, email: string) {
    var cached := Load(config, file);
    cached.Some? && Get(cached.value, CACHED_EMAIL) in {None, Some(email)}
  }

  /** What is written for an auth response: the given email, or the one it carries, if any. */
  function Stored(data: Auth, email: string): Auth {
    data[CACHED_EMAIL := if email != "" then Some(email) else Get(data, CACHED_EMAIL)]
  }

  function SaveTo(config: Config, file: Cache, data: Auth, email: string, save: Save): Cache {
    if config.noCache then file
    else match save
      case Saved => Some(Stored(data, email))
      case LeftAsIs => file
      case Truncated => None
  }

  function NewToken(data: Auth): string {
    if Truthy(data, TOKEN) then GetOrEmpty(data, TOKEN) else GetOrEmpty(data, ACCESS_TOKEN)
  }

  /** A refresh answer laid over the cached auth, its nulls included. */
  function Merged(cached: Auth, data: Auth): Auth {
    var merged := (cached + data)[TOKEN := Some(NewToken(data))];
    if Truthy(data, REFRESH_TOKEN) then merged else merged[REFRESH_TOKEN := Get(cached, REFRESH_TOKEN)]
  }

  /** The first answer with a token; a rejection before it ends the search. */
  function FirstToken(shapes: seq<ShapeReply>): Option<Auth> {
    if shapes == [] then None
    else match shapes[0]
      case NoAnswer => FirstToken(shapes[1..])
      case Answer(code, data) =>
        if NewToken(data) != "" then Some(data)
        else if code in {401, 403, 1002, 1003} then None
        else FirstToken(shapes[1..])
  }

  function Refreshed(config: Config, cached: Auth, shapes: seq<ShapeReply>): Option<Auth> {
    if config.noRefresh || !Truthy(cached, REFRESH_TOKEN) || FirstToken(shapes).None? then None
    else Some(Merged(cached, FirstToken(shapes).value))
  }

  /** How a call ends: the cache file, the auth handed out, and whether a fresh login went through. */
  datatype End = End(file: Cache, auth: Option<Auth>, loggedIn: bool)

  function FreshLogin(config: Config, file: Cache, email: string, w: World): End {
    if w.login.Refused? || !Truthy(w.login.data, TOKEN) then End(file, None, false)
    else End(SaveTo(config, file, w.login.data, email, w.loginSave),
             if w.afterLogin == Devices then Some(w.login.data) else None, true)
  }

  function Clear(file: Cache, cleared: bool): Cache {
    if cleared then None else file
  }

  function Resume(config: Config, file: Cache, email: string, w: World): End {
    var cached := Load(config, file);
    if !Usable(config, file, email) then
      FreshLogin(config, if cached.Some? then Clear(file, w.cleared) else file, email, w)
    else match w.first
      case Devices => End(file, cached, false)
      case OtherError => End(file, None, false)
      case Expired =>
        var refreshed := Refreshed(config, cached.value, w.shapes);
        if refreshed.None? then FreshLogin(config, Clear(file, w.cleared), email, w)
        else
          var saved := SaveTo(config, file, refreshed.value, GetOrEmpty(cached.value, CACHED_EMAIL), w.refreshSave);
          match w.afterRefresh
          case Devices => End(saved, refreshed, false)
          case OtherError => End(saved, None, false)
          case Expired => FreshLogin(config, Clear(saved, w.cleared), email, w)
  }

  // ---- The code ----

  class AuthStore {
    const config: Config
    var file: Cache
    var authState: Auth

    constructor (config: Config, file: Cache)
      ensures this.config == config && this.file == file
    {
      this.config, this.file, authState := config, file, map[];
    }

    /** `_save_cached_auth`. */
    method SaveCachedAuth(data: Auth, email: string, save: Save)
      modifies this`file
      ensures file == SaveTo(config, old(file), data, email, save)
    {
      if config.noCache {
        return;
      }
      var toStore := data[CACHED_EMAIL := if email != "" then Some(email) else Get(data, CACHED_EMAIL)];
      match save
      case Saved => file := Some(toStore);
      case LeftAsIs =>
      case Truncated => file := None;
    }

    /** `refresh_token`: the endpoints in turn, until one yields a token or rejects. */
    method RefreshToken(cached: Auth, shapes: seq<ShapeReply>, save: Save) returns (refreshed: Option<Auth>)
      modifies this
      ensures refreshed == Refreshed(config, cached, shapes)
      ensures file == if refreshed.Some?
                      then SaveTo(config, old(file), refreshed.value, GetOrEmpty(cached, CACHED_EMAIL), save)
                      else old(file)
      ensures authState == if refreshed.Some? then refreshed.value else old(authState)
    {
      refreshed := None;
      if config.noRefresh || !Truthy(cached, REFRESH_TOKEN) {
        return;
      }
      var i := 0;
      while i < |shapes|
        invariant 0 <= i <= |shapes|
        invariant FirstToken(shapes[i..]) == FirstToken(shapes)
        invariant file == old(file) && authState == old(authState)
      {
        var reply := shapes[i];
        i := i + 1;
        if reply.NoAnswer? {
          continue;
        }
        var data := reply.data;
        var newToken := NewToken(data);
        if newToken == "" {
          if reply.code in {401, 403, 1002, 1003} {
            return;
          }
          continue;
        }
        var merged := cached + data;
        merged := merged[TOKEN := Some(newToken)];
        if !Truthy(data, REFRESH_TOKEN) {
          merged := merged[REFRESH_TOKEN := Get(cached, REFRESH_TOKEN)];
        }
        authState := merged;
        SaveCachedAuth(merged, GetOrEmpty(cached, CACHED_EMAIL), save);
        return Some(merged);
      }
    }

    /** `login`, and the device list fetched with what it returned. */
    method Login(email: string, w: World) returns (auth: Option<Auth>, loggedIn: bool)
      modifies this
      ensures End(file, auth, loggedIn) == FreshLogin(config, old(file), email, w)
      ensures auth.Some? ==> authState == auth.value
    {
      auth, loggedIn := None, false;
      if w.login.Refused? || !Truthy(w.login.data, TOKEN) {
        return;
      }
      authState := w.login.data;
      SaveCachedAuth(w.login.data, email, w.loginSave);
      loggedIn := true;
      if w.afterLogin == Devices {
        auth := Some(w.login.data);
      }
    }

    /** `login_or_resume`. */
    method LoginOrResume(email: string, w: World) returns (auth: Option<Auth>, loggedIn: bool)
      modifies this
      ensures End(file, auth, loggedIn) == Resume(config, old(file), email, w)
      ensures auth.Some? ==> authState == auth.value
    {
      auth, loggedIn := None, false;
      var cached := Load(config, file);
      if cached.Some? && Get(cached.value, CACHED_EMAIL) in {None, Some(email)} {
        if w.first == Devices {
          authState := cached.value;
          return cached, false;
        }
        if w.first == OtherError {
          return;
        }
        var refreshed := RefreshToken(cached.value, w.shapes, w.refreshSave);
        if refreshed.Some? {
          if w.afterRefresh == Devices {
            authState := refreshed.value;
            return refreshed, false;
          }
          if w.afterRefresh == OtherError {
            return;
          }
        }
        file := Clear(file, w.cleared);
      } else if cached.Some? {
        file := Clear(file, w.cleared);
      }
      auth, loggedIn := Login(email, w);
    }
  }

  // ---- Logins over whole runs ----

  /** The cache file after the given calls, each of which may be the first after a restart. */
  function FileAfter(config: Config, file: Cache, email: string, calls: seq<World>): Cache
    decreases |calls|
  {
    if calls == [] then file
    else Resume(config, FileAfter(config, file, email, calls[..|calls| - 1]), email, calls[|calls| - 1]).file
  }

  /** Fresh logins that went through. */
  function Logins(config: Config, file: Cache, email: string, calls: seq<World>): nat
    decreases |calls|
  {
    if calls == [] then 0
    else
      var before, w := calls[..|calls| - 1], calls[|calls| - 1];
      Logins(config, file, email, before)
      + if Resume(config, FileAfter(config, file, email, before), email, w).loggedIn then 1 else 0
  }

  /** How often the device list call rejected a cached token. */
  function Rejections(config: Config, file: Cache, email: string, calls: seq<World>): nat
    decreases |calls|
  {
    if calls == [] then 0
    else
      var before, w := calls[..|calls| - 1], calls[|calls| - 1];
      Rejections(config, file, email, before)
      + if Usable(config, FileAfter(config, file, email, before), email) && w.first == Expired then 1 else 0
  }

  /** How often a fresh login could not be written to the cache file. */
  function LostLogins(config: Config, file: Cache, email: string, calls: seq<World>): nat
    decreases |calls|
  {
    if calls == [] then 0
    else
      var before, w := calls[..|calls| - 1], calls[|calls| - 1];
      var end := Resume(config, FileAfter(config, file, email, before), email, w);
      LostLogins(config, file, email, before) + if end.loggedIn && w.loginSave != Saved then 1 else 0
  }

  /** The login that a cache which is not usable makes necessary. */
  function Owed(config: Config, file: Cache, email: string): nat {
    if Usable(config, file, email) then 0 else 1
  }

  lemma SavedLoginIsUsable(config: Config, data: Auth, email: string)
    requires !config.noCache && email != "" && Truthy(data, TOKEN)
    ensures Usable(config, Some(Stored(data, email)), email)
  {
    assert TOKEN[0] != CACHED_EMAIL[0];
  }

  lemma CallPaysItsLogin(config: Config, file: Cache, email: string, w: World)
    requires !config.noCache && email != ""
    ensures var r := Resume(config, file, email, w);
            (if r.loggedIn then 1 else 0) + Owed(config, r.file, email)
            <= Owed(config, file, email)
               + (if Usable(config, file, email) && w.first == Expired then 1 else 0)
               + (if r.loggedIn && w.loginSave != Saved then 1 else 0)
  {
    if w.login.Granted? && Truthy(w.login.data, TOKEN) {
      SavedLoginIsUsable(config, w.login.data, email);
    }
  }

  lemma {:induction false} LoginsAreOwed(config: Config, file: Cache, email: string, calls: seq<World>)
    requires !config.noCache && email != ""
    ensures Logins(config, file, email, calls) + Owed(config, FileAfter(config, file, email, calls), email)
         <= Owed(config, file, email) + Rejections(config, file, email, calls) + LostLogins(config, file, email, calls)
    decreases |calls|
  {
    if calls != [] {
      var before := calls[..|calls| - 1];
      LoginsAreOwed(config, file, email, before);
      CallPaysItsLogin(config, FileAfter(config, file, email, before), email, calls[|calls| - 1]);
    }
  }

  /**
   Over any run for one account, restarts included, with a cache file that can be written
   after a login, fresh logins are at most one plus the number of cached tokens that the
   device list call rejected.
   */
  lemma LoginsAreBounded(config: Config, file: Cache, email: string, calls: seq<World>)
    requires !config.noCache && email != ""
    requires forall k :: 0 <= k < |calls| ==> calls[k].loginSave == Saved
    ensures Logins(config, file, email, calls) <= 1 + Rejections(config, file, email, calls)
    ensures Usable(config, file, email) ==>
              Logins(config, file, email, calls) <= Rejections(config, file, email, calls)
  {
    LoginsAreOwed(config, file, email, calls);
    NothingLost(config, file, email, calls);
  }

  lemma {:induction false} NothingLost(config: Config, file: Cache, email: string, calls: seq<World>)
    requires forall k :: 0 <= k < |calls| ==> calls[k].loginSave == Saved
    ensures LostLogins(config, file, email, calls) == 0
    decreases |calls|
  {
    if calls != [] {
      NothingLost(config, file, email, calls[..|calls| - 1]);
    }
  }

  // ---- What a refresh keeps ----

  lemma {:induction false} FirstTokenHasToken(shapes: seq<ShapeReply>)
    ensures FirstToken(shapes).Some? ==> NewToken(FirstToken(shapes).value) != ""
    decreases |shapes|
  {
    if shapes != [] {
      FirstTokenHasToken(shapes[1..]);
    }
  }

  predicate GivesToken(reply: ShapeReply) {
    reply.Answer? && (Truthy(reply.data, "token") || Truthy(reply.data, "accessToken"))
  }

  predicate Rejects(reply: ShapeReply) {
    reply.Answer? && !GivesToken(reply) && reply.code in {401, 403, 1002, 1003}
  }

  /** Endpoint i decides: it gives a token or rejects, and none before it does either. */
  ghost predicate Decides(shapes: seq<ShapeReply>, i: nat) {
    && i < |shapes| && (GivesToken(shapes[i]) || Rejects(shapes[i]))
    && forall j :: 0 <= j < i ==> !GivesToken(shapes[j]) && !Rejects(shapes[j])
  }

  /** The refresh takes the token of the endpoint that decides, and none if it rejects or no endpoint decides. */
  lemma {:induction false} FirstTokenDecides(shapes: seq<ShapeReply>)
    ensures forall i: nat :: Decides(shapes, i) ==>
              FirstToken(shapes) == if GivesToken(shapes[i]) then Some(shapes[i].data) else None
    ensures (forall i: nat :: !Decides(shapes, i)) ==> FirstToken(shapes) == None
    decreases |shapes|
  {
    if shapes != [] {
      var rest := shapes[1..];
      FirstTokenDecides(rest);
      if GivesToken(shapes[0]) || Rejects(shapes[0]) {
        assert Decides(shapes, 0);
      } else {
        forall i: nat | Decides(rest, i) ensures Decides(shapes, i + 1) {
        }
        forall i: nat | Decides(shapes, i) ensures i > 0 && Decides(rest, i - 1) {
        }
      }
    }
  }

  // ---- When a call logs in ----

  /** The search over the endpoints ends with a token. */
  ghost predicate RefreshGivesToken(config: Config, cached: Auth, shapes: seq<ShapeReply>) {
    && !config.noRefresh && Truthy(cached, REFRESH_TOKEN)
    && exists i: nat :: Decides(shapes, i) && GivesToken(shapes[i])
  }

  lemma RefreshedIff(config: Config, cached: Auth, shapes: seq<ShapeReply>)
    ensures Refreshed(config, cached, shapes).Some? <==> RefreshGivesToken(config, cached, shapes)
  {
    FirstTokenDecides(shapes);
  }

  predicate LoginWorks(w: World) {
    w.login.Granted? && Truthy(w.login.data, TOKEN)
  }

  /**
   The e-mail that a fresh login sends is spent exactly when there is no usable cache, or its
   token is rejected and the refresh yields no token, or one that is rejected as well.
   */
  lemma LogsInIff(config: Config, file: Cache, email: string, w: World)
    ensures Resume(config, file, email, w).loggedIn
       <==> LoginWorks(w)
            && (Usable(config, file, email) ==>
                  && w.first == Expired
                  && (RefreshGivesToken(config, file.value, w.shapes) ==> w.afterRefresh == Expired))
  {
    if Usable(config, file, email) {
      RefreshedIff(config, file.value, w.shapes);
    }
  }

  // ---- What a refresh keeps ----

  /** The auth that a refresh leaves in the file, if it can be written. */
  function RefreshStores(cached: Auth, shapes: seq<ShapeReply>): Auth
    requires FirstToken(shapes).Some?
  {
    Stored(Merged(cached, FirstToken(shapes).value), GetOrEmpty(cached, CACHED_EMAIL))
  }

  lemma KeysDiffer()
    ensures TOKEN != REFRESH_TOKEN && TOKEN != CACHED_EMAIL && REFRESH_TOKEN != CACHED_EMAIL
  {
    assert TOKEN[0] == 't' && CACHED_EMAIL[0] == '_' && REFRESH_TOKEN[0] == 'r';
  }

  /**
   What a refresh stores, key by key: the new token; the answer's refresh token if it has one,
   else the old; the cached email if there is one; and otherwise the answer's value wherever
   the answer has the key, be it null, and the cached one where it has not.
   */
  lemma RefreshStoresExactly(config: Config, cached: Auth, shapes: seq<ShapeReply>, key: string)
    requires Refreshed(config, cached, shapes).Some?
    ensures var answer, stored := FirstToken(shapes).value, RefreshStores(cached, shapes);
            var laid := if key in answer then answer[key] else Get(cached, key);
            Get(stored, key) == if key == TOKEN then Some(NewToken(answer))
                                else if key == REFRESH_TOKEN then
                                  if Truthy(answer, key) then answer[key] else Get(cached, key)
                                else if key == CACHED_EMAIL && Truthy(cached, key) then Get(cached, key)
                                else laid
  {
    KeysDiffer();
  }

  /** The auth in the file after saved refreshes with the given answers. */
  function AfterRefreshes(cached: Auth, answers: seq<Auth>): Auth
    decreases |answers|
  {
    if answers == [] then cached
    else
      var before := AfterRefreshes(cached, answers[..|answers| - 1]);
      Stored(Merged(before, answers[|answers| - 1]), GetOrEmpty(before, CACHED_EMAIL))
  }

  /** What the last of the answers that has the key says, be it null; or the default if none has it. */
  function LastSaid(answers: seq<Auth>, key: string, default: Option<string>): Option<string>
    decreases |answers|
  {
    if answers == [] then default
    else
      var last := answers[|answers| - 1];
      if key in last then last[key] else LastSaid(answers[..|answers| - 1], key, default)
  }

  /** What the last of the answers with a value that is not empty says, or the default. */
  function LastGiven(answers: seq<Auth>, key: string, default: Option<string>): Option<string>
    decreases |answers|
  {
    if answers == [] then default
    else
      var last := answers[|answers| - 1];
      if Truthy(last, key) then last[key] else LastGiven(answers[..|answers| - 1], key, default)
  }

  /**
   What survives any number of refreshes: a cached email and the last refresh token for good;
   any other value until an answer has its key, even with a null.
   */
  lemma {:induction false} RefreshesKeep(cached: Auth, answers: seq<Auth>, key: string)
    ensures var value := Get(AfterRefreshes(cached, answers), key);
            && (key == CACHED_EMAIL && Truthy(cached, key) ==> value == Get(cached, key))
            && (key == REFRESH_TOKEN ==> value == LastGiven(answers, key, Get(cached, key)))
            && (key !in {TOKEN, REFRESH_TOKEN, CACHED_EMAIL} ==> value == LastSaid(answers, key, Get(cached, key)))
    decreases |answers|
  {
    KeysDiffer();
    if answers != [] {
      RefreshesKeep(cached, answers[..|answers| - 1], key);
    }
  }

  /** The answer names no other account. */
  predicate NamesNoOther(answer: Auth, email: string) {
    CACHED_EMAIL in answer ==> answer[CACHED_EMAIL] in {None, Some(email)}
  }

  /**
   A saved refresh leaves a cache with a token and a refresh token, and one that is usable for
   the account exactly when the cache named the account or the answer names no other.
   */
  lemma RefreshKeepsAccount(config: Config, cached: Auth, shapes: seq<ShapeReply>, email: string)
    requires !config.noCache && Get(cached, CACHED_EMAIL) in {None, Some(email)}
    requires Refreshed(config, cached, shapes).Some?
    ensures var stored := RefreshStores(cached, shapes);
            && Truthy(stored, TOKEN) && Truthy(stored, REFRESH_TOKEN)
            && (Usable(config, Some(stored), email)
                <==> Truthy(cached, CACHED_EMAIL) || NamesNoOther(FirstToken(shapes).value, email))
  {
    FirstTokenHasToken(shapes);
    KeysDiffer();
    RefreshStoresExactly(config, cached, shapes, TOKEN);
    RefreshStoresExactly(config, cached, shapes, REFRESH_TOKEN);
    RefreshStoresExactly(config, cached, shapes, CACHED_EMAIL);
  }

  /** A null in an otherwise sparse answer takes a cached value with it. */
  lemma NullTakesRegion()
    ensures var cached: Auth := map[TOKEN := Some("old"), REFRESH_TOKEN := Some("r"), "region" := Some("eu")];
            var shapes := [Answer(0, map[TOKEN := Some("new"), "region" := None])];
            && Refreshed(Config(false, false), cached, shapes).Some?
            && Get(RefreshStores(cached, shapes), "region") == None
  {
  }

  // ---- Transient failures ----

  /** A validation fails for any other reason than a rejected token: of the cached token, or of a refreshed one. */
  ghost predicate FailsInPassing(config: Config, cached: Auth, w: World) {
    || w.first == OtherError
    || (w.first == Expired && RefreshGivesToken(config, cached, w.shapes) && w.afterRefresh == OtherError)
  }

  /** The cache as a refresh leaves it is still good for the account. */
  predicate RefreshLeavesUsable(cached: Auth, email: string, w: World)
    requires FirstToken(w.shapes).Some?
  {
    match w.refreshSave
    case Saved => Truthy(cached, CACHED_EMAIL) || NamesNoOther(FirstToken(w.shapes).value, email)
    case LeftAsIs => true
    case Truncated => false
  }

  /**
   A validation that fails in passing logs nobody in. Before a refresh the cache file is left
   alone; after one it stays usable for the account, but for a save that broke off or an
   answer that names another account.
   */
  lemma TransientFailureKeepsToken(config: Config, file: Cache, email: string, w: World)
    requires Usable(config, file, email) && FailsInPassing(config, file.value, w)
    ensures var r := Resume(config, file, email, w);
            && !r.loggedIn && r.auth == None
            && (w.first == OtherError ==> r.file == file)
            && (w.first == Expired ==>
                  && FirstToken(w.shapes).Some?
                  && (Usable(config, r.file, email) <==> RefreshLeavesUsable(file.value, email, w)))
  {
    if w.first == Expired {
      RefreshedIff(config, file.value, w.shapes);
      RefreshKeepsAccount(config, file.value, w.shapes, email);
    }
  }

  // ---- Which auth a call hands out ----

  /** A cache is usable exactly if caching is on, its token is not empty, and it names this account or none. */
  lemma UsableIff(config: Config, file: Cache, email: string)
    ensures Usable(config, file, email)
       <==> && !config.noCache && file.Some?
            && (exists token :: token != "" && Get(file.value, "token") == Some(token))
            && (Get(file.value, "_cached_email") == None || Get(file.value, "_cached_email") == Some(email))
  {
    if file.Some? && Truthy(file.value, TOKEN) {
      assert Get(file.value, "token") == Some(Get(file.value, "token").value);
    }
  }

  /** The token that an endpoint's answer gives. */
  predicate IsTokenOf(token: Option<string>, answer: Auth) {
    token == if Truthy(answer, "token") then Get(answer, "token") else Get(answer, "accessToken")
  }

  /** The auth is a refreshed one: it has the token of the endpoint that decides. */
  ghost predicate IsRefreshed(auth: Auth, shapes: seq<ShapeReply>) {
    exists i: nat :: Decides(shapes, i) && GivesToken(shapes[i]) && IsTokenOf(Get(auth, "token"), shapes[i].data)
  }

  lemma RefreshedHasToken(config: Config, cached: Auth, shapes: seq<ShapeReply>)
    requires Refreshed(config, cached, shapes).Some?
    ensures IsRefreshed(Refreshed(config, cached, shapes).value, shapes)
    ensures Get(RefreshStores(cached, shapes), TOKEN) == Get(Refreshed(config, cached, shapes).value, TOKEN)
  {
    KeysDiffer();
    FirstTokenDecides(shapes);
    RefreshedIff(config, cached, shapes);
    var i: nat :| Decides(shapes, i) && GivesToken(shapes[i]);
    assert IsTokenOf(Get(Refreshed(config, cached, shapes).value, "token"), shapes[i].data);
  }

  /** The cached token was rejected, and a refreshed one accepted. */
  ghost predicate RefreshAccepted(config: Config, cached: Auth, w: World) {
    w.first == Expired && RefreshGivesToken(config, cached, w.shapes) && w.afterRefresh == Devices
  }

  /**
   A call hands out the auth that the last device list call accepted, and none if there is no
   such: the cached one, a refreshed one with its new token, or what the login answered.
   */
  lemma HandsOutAccepted(config: Config, file: Cache, email: string, w: World)
    ensures var r, usable := Resume(config, file, email, w), Usable(config, file, email);
            && (usable && w.first == Devices ==> r.auth == file)
            && (usable && RefreshAccepted(config, file.value, w) ==>
                  && r.auth.Some? && IsRefreshed(r.auth.value, w.shapes)
                  && (w.refreshSave == Saved ==>
                        r.file.Some? && Get(r.file.value, "token") == Get(r.auth.value, "token")))
            && (r.loggedIn ==> r.auth == if w.afterLogin == Devices then Some(w.login.data) else None)
            && (r.auth.Some? ==> Truthy(r.auth.value, "token"))
            && (r.auth.Some? ==>
                  || (usable && (w.first == Devices || RefreshAccepted(config, file.value, w)))
                  || (r.loggedIn && w.afterLogin == Devices))
  {
    if Usable(config, file, email) {
      RefreshedIff(config, file.value, w.shapes);
      if Refreshed(config, file.value, w.shapes).Some? {
        RefreshedHasToken(config, file.value, w.shapes);
        FirstTokenHasToken(w.shapes);
      }
    }
  }

  /** A rejected token, or a cache for another account, makes the call clear the cache and log in. */
  ghost predicate GivesUpCache(config: Config, file: Cache, email: string, w: World) {
    && Load(config, file).Some?
    && (Usable(config, file, email) ==>
          w.first == Expired && (RefreshGivesToken(config, file.value, w.shapes) ==> w.afterRefresh == Expired))
  }

  /** The file as the refresh leaves it. */
  function RefreshedFile(file: Cache, w: World): Cache
    requires file.Some? && FirstToken(w.shapes).Some?
  {
    match w.refreshSave
    case Saved => Some(RefreshStores(file.value, w.shapes))
    case LeftAsIs => file
    case Truncated => None
  }

  /** What is left of the cache before any login. */
  ghost predicate IsLeft(left: Cache, config: Config, file: Cache, email: string, w: World) {
    var refreshed :=
      Usable(config, file, email) && w.first == Expired && RefreshGivesToken(config, file.value, w.shapes);
    if GivesUpCache(config, file, email, w) && w.cleared then left == None
    else if refreshed then FirstToken(w.shapes).Some? && left == RefreshedFile(file, w)
    else left == file
  }

  /**
   What the cache file holds after a call: the answer of a login that was saved, under the given
   email; nothing where that save broke off; and else what is left of the cache, which is given
   up with a rejected token or for another account, renewed by a refresh, and kept otherwise.
   */
  lemma FileAfterCall(config: Config, file: Cache, email: string, w: World)
    ensures var r := Resume(config, file, email, w);
            if r.loggedIn && !config.noCache && w.loginSave == Saved then
              r.file == Some(w.login.data["_cached_email" := if email != "" then Some(email)
                                                             else Get(w.login.data, "_cached_email")])
            else if r.loggedIn && !config.noCache && w.loginSave == Truncated then r.file == None
            else IsLeft(r.file, config, file, email, w)
  {
    if Usable(config, file, email) {
      RefreshedIff(config, file.value, w.shapes);
    }
  }
}
