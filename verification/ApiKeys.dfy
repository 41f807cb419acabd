/**
 API keys: the table of entities, the handlers that change it, and key verification through a cache of verified keys
 (middleware/VerifyApiKey.js, controllers/ApiKeys.js, controllers/ApiKeysUtils.js). Requests are taken one at a time.
 */
module ApiKeys {
  import opened Wrappers
  import opened Strings

  /** The digest that indexes the cache and the comparison of a key with a stored hash. */
  datatype Crypto = Crypto(sha: string -> string, compare: (string, string) -> bool)

  ghost predicate Injective(sha: string -> string) {
    forall a, b :: sha(a) == sha(b) ==> a == b
  }

  datatype Entity = Entity(id: nat, keyId: string, hash: string, name: string, role: string, active: bool)
  datatype Verified = Verified(id: nat, name: string, role: string)
  datatype State = State(rows: seq<Entity>, cache: map<string, Verified>)

  // What the generator and the database come up with for a new row.
  datatype Credentials = Credentials(id: nat, keyId: string, secret: string, hash: string)
  datatype BootstrapSettings = BootstrapSettings(enabled: bool, autoDisable: bool, requireToken: bool)
  datatype Level = Viewer | Operator | Admin

  datatype Request =
    | Bootstrap(settings: BootstrapSettings, tokenValid: bool, name: string, made: Credentials)
    | Generate(name: string, role: string, made: Credentials)
    | Delete(id: nat)
    | Revoke(id: nat)
    | Verify(xApiKey: string, authorization: string, needed: Level)

  datatype Response =
    | Bootstrapped(apiKey: string)
    | Generated(apiKey: string, id: nat, role: string)
    | Removed(id: nat)
    | Authenticated(entity: Verified)
    | KeyMissing | InvalidKey | InsufficientRole
    | BadRequest | Forbidden | NotFound | Conflict | ServerError

  // ---- Keys ----

  predicate UrlSafe(s: string) {
    forall i :: 0 <= i < |s| ==>
      'A' <= s[i] <= 'Z' || 'a' <= s[i] <= 'z' || '0' <= s[i] <= '9' || s[i] == '_' || s[i] == '-'
  }

  /** The key id of a key of the form hw_<16 characters>.<secret>. */
  function KeyIdOf(key: string): Option<string> {
    if |key| > 20 && key[..3] == "hw_" && UrlSafe(key[3..19]) && key[19] == '.' && UrlSafe(key[20..])
    then Some(key[3..19])
    else None
  }

  function ApiKey(made: Credentials): string {
    "hw_" + made.keyId + "." + made.secret
  }

  predicate WellMade(made: Credentials) {
    |made.keyId| == 16 && UrlSafe(made.keyId) && made.secret != "" && UrlSafe(made.secret)
  }

  lemma GeneratedKeyHasItsId(made: Credentials)
    requires WellMade(made)
    ensures KeyIdOf(ApiKey(made)) == Some(made.keyId)
  {
    var key := ApiKey(made);
    assert key[..3] == "hw_" && key[3..19] == made.keyId && key[20..] == made.secret;
  }

  function RoleLevel(role: string): nat {
    if role == "viewer" then 1 else if role == "operator" then 2 else if role == "admin" then 3 else 0
  }

  function LevelOf(needed: Level): nat {
    match needed
    case Viewer => 1
    case Operator => 2
    case Admin => 3
  }

  /** The X-API-Key header, or the second word of the Authorization header. */
  function PresentedKey(xApiKey: string, authorization: string): string {
    if xApiKey != "" then xApiKey
    else
      var words := Split(authorization, ' ');
      if |words| > 1 then words[1] else ""
  }

  // ---- The table ----

  function EffectiveRole(role: string): string {
    if role == "" then "admin" else role
  }

  predicate Unique(rows: seq<Entity>) {
    forall i, j :: 0 <= i < j < |rows| ==> rows[i].id != rows[j].id && rows[i].keyId != rows[j].keyId
  }

  function FindActive(rows: seq<Entity>, keyId: string): Option<Entity> {
    if |rows| == 0 then None
    else if rows[0].keyId == keyId && rows[0].active then Some(rows[0])
    else FindActive(rows[1..], keyId)
  }

  function FindByPk(rows: seq<Entity>, id: nat): Option<Entity> {
    if |rows| == 0 then None else if rows[0].id == id then Some(rows[0]) else FindByPk(rows[1..], id)
  }

  function Destroyed(rows: seq<Entity>, id: nat): seq<Entity> {
    if |rows| == 0 then []
    else if rows[0].id == id then Destroyed(rows[1..], id)
    else [rows[0]] + Destroyed(rows[1..], id)
  }

  function Deactivated(rows: seq<Entity>, id: nat): seq<Entity> {
    if |rows| == 0 then []
    else [if rows[0].id == id then rows[0].(active := false) else rows[0]] + Deactivated(rows[1..], id)
  }

  /** A new row, refused by the table when its id or key id is taken. */
  function Created(rows: seq<Entity>, made: Credentials, name: string, role: string): Option<seq<Entity>> {
    if exists i :: 0 <= i < |rows| && (rows[i].id == made.id || rows[i].keyId == made.keyId) then None
    else Some(rows + [Entity(made.id, made.keyId, made.hash, name, role, true)])
  }

  lemma {:induction false} FindActiveFinds(rows: seq<Entity>, keyId: string, e: Entity)
    requires Unique(rows)
    ensures FindActive(rows, keyId) == Some(e) <==> e in rows && e.keyId == keyId && e.active
  {
    if |rows| > 0 {
      FindActiveFinds(rows[1..], keyId, e);
      assert rows == [rows[0]] + rows[1..];
    }
  }

  lemma {:induction false} FindByPkFinds(rows: seq<Entity>, id: nat, e: Entity)
    requires Unique(rows)
    ensures FindByPk(rows, id) == Some(e) <==> e in rows && e.id == id
  {
    if |rows| > 0 {
      FindByPkFinds(rows[1..], id, e);
      assert rows == [rows[0]] + rows[1..];
    }
  }

  lemma {:induction false} DestroyedRows(rows: seq<Entity>, id: nat)
    ensures forall e :: e in Destroyed(rows, id) <==> e in rows && e.id != id
    ensures Unique(rows) ==> Unique(Destroyed(rows, id))
  {
    if |rows| > 0 {
      DestroyedRows(rows[1..], id);
      assert rows == [rows[0]] + rows[1..];
      if rows[0].id != id && Unique(rows) {
        var rest := Destroyed(rows[1..], id);
        forall i | 0 <= i < |rest| ensures rest[i].id != rows[0].id && rest[i].keyId != rows[0].keyId {
          assert rest[i] in rest;
        }
      }
    }
  }

  lemma {:induction false} DeactivatedRows(rows: seq<Entity>, id: nat)
    ensures |Deactivated(rows, id)| == |rows|
    ensures forall i :: 0 <= i < |rows| ==>
      Deactivated(rows, id)[i] == if rows[i].id == id then rows[i].(active := false) else rows[i]
  {
    if |rows| > 0 {
      DeactivatedRows(rows[1..], id);
    }
  }

  // ---- The lockout guard ----

  predicate ActiveAdmin(e: Entity) {
    e.active && EffectiveRole(e.role) == "admin"
  }

  ghost predicate HasActiveAdmin(rows: seq<Entity>) {
    exists i :: 0 <= i < |rows| && ActiveAdmin(rows[i])
  }

  /** The guard counts only the other rows that spell the role out. */
  predicate IsLastActiveAdmin(rows: seq<Entity>, entity: Entity) {
    ActiveAdmin(entity) &&
    forall i :: 0 <= i < |rows| && rows[i].id != entity.id ==> !(rows[i].active && rows[i].role == "admin")
  }

  // ---- Verification ----

  function VerifyAgainstDatabase(c: Crypto, rows: seq<Entity>, key: string): Option<Verified> {
    match KeyIdOf(key)
    case None => None
    case Some(keyId) =>
      match FindActive(rows, keyId)
      case None => None
      case Some(e) => if c.compare(key, e.hash) then Some(Verified(e.id, e.name, EffectiveRole(e.role))) else None
  }

  function Authorize(entry: Option<Verified>, needed: Level): Response {
    match entry
    case None => InvalidKey
    case Some(v) => if RoleLevel(v.role) < LevelOf(needed) then InsufficientRole else Authenticated(v)
  }

  /** The cache answers first; a key verified against the table is remembered. */
  function VerifyCached(c: Crypto, s: State, key: string): (State, Option<Verified>) {
    if c.sha(key) in s.cache then (s, Some(s.cache[c.sha(key)]))
    else
      match VerifyAgainstDatabase(c, s.rows, key)
      case None => (s, None)
      case Some(v) => (s.(cache := s.cache[c.sha(key) := v]), Some(v))
  }

  function Purged(cache: map<string, Verified>, id: nat): map<string, Verified> {
    map h | h in cache && cache[h].id != id :: cache[h]
  }

  // ---- The handlers on the table ----

  function BootstrapRows(rows: seq<Entity>, r: Request): (seq<Entity>, Response)
    requires r.Bootstrap?
  {
    if !r.settings.enabled || (|rows| > 0 && r.settings.autoDisable) || (r.settings.requireToken && !r.tokenValid) then
      (rows, Forbidden)
    else
      match Created(rows, r.made, if r.name == "" then "Bootstrap-Key" else r.name, "admin")
      case None => (rows, ServerError)
      case Some(more) => (more, Bootstrapped(ApiKey(r.made)))
  }

  function GenerateRows(rows: seq<Entity>, r: Request): (seq<Entity>, Response)
    requires r.Generate?
  {
    var role := EffectiveRole(r.role);
    if r.name == "" || RoleLevel(role) == 0 then (rows, BadRequest)
    else
      match Created(rows, r.made, r.name, role)
      case None => (rows, ServerError)
      case Some(more) => (more, Generated(ApiKey(r.made), r.made.id, role))
  }

  /** Delete and revoke refuse alike; what they do to the row differs. */
  function RemovalRefusal(rows: seq<Entity>, id: nat): Option<Response> {
    match FindByPk(rows, id)
    case None => Some(NotFound)
    case Some(e) => if IsLastActiveAdmin(rows, e) then Some(Conflict) else None
  }

  /** A request that checks the table every time. */
  function Reference(c: Crypto, rows: seq<Entity>, r: Request): (seq<Entity>, Response) {
    match r
    case Bootstrap(_, _, _, _) => BootstrapRows(rows, r)
    case Generate(_, _, _) => GenerateRows(rows, r)
    case Delete(id) =>
      var refusal := RemovalRefusal(rows, id);
      if refusal.Some? then (rows, refusal.value) else (Destroyed(rows, id), Removed(id))
    case Revoke(id) =>
      var refusal := RemovalRefusal(rows, id);
      if refusal.Some? then (rows, refusal.value) else (Deactivated(rows, id), Removed(id))
    case Verify(x, a, needed) =>
      var key := PresentedKey(x, a);
      (rows, if key == "" then KeyMissing else Authorize(VerifyAgainstDatabase(c, rows, key), needed))
  }

  /** A request as the program handles it: verification through the cache, removals purge it. */
  function Handle(c: Crypto, s: State, r: Request): (State, Response) {
    match r
    case Verify(x, a, needed) =>
      var key := PresentedKey(x, a);
      if key == "" then (s, KeyMissing)
      else
        var (after, entry) := VerifyCached(c, s, key);
        (after, Authorize(entry, needed))
    case _ =>
      var (rows, response) := Reference(c, s.rows, r);
      (State(rows, if response.Removed? then Purged(s.cache, response.id) else s.cache), response)
  }

  // ---- The server ----

  class Agent {
    const crypto: Crypto
    var rows: seq<Entity>
    var cache: map<string, Verified>

    function Now(): State
      reads this
    {
      State(rows, cache)
    }

    constructor (c: Crypto)
      ensures crypto == c && Now() == State([], map[])
    {
      crypto, rows, cache := c, [], map[];
    }

    method PurgeApiKeyCacheEntry(entityId: nat)
      modifies this`cache
      ensures cache == Purged(old(cache), entityId)
    {
      var hashes := cache.Keys;
      while hashes != {}
        invariant hashes <= cache.Keys <= old(cache).Keys
        invariant forall h :: h in cache ==> cache[h] == old(cache)[h]
        invariant forall h :: h in old(cache) ==>
          (h in cache <==> h in hashes || old(cache)[h].id != entityId)
      {
        var hash :| hash in hashes;
        hashes := hashes - {hash};
        if cache[hash].id == entityId {
          cache := cache - {hash};
        }
      }
    }

    method VerifyApiKey(xApiKey: string, authorization: string, needed: Level) returns (response: Response)
      modifies this`cache
      ensures (Now(), response) == Handle(crypto, old(Now()), Verify(xApiKey, authorization, needed))
    {
      var key := PresentedKey(xApiKey, authorization);
      if key == "" {
        return KeyMissing;
      }
      var hash := crypto.sha(key);
      var entry := if hash in cache then Some(cache[hash]) else None;
      if entry == None {
        entry := VerifyAgainstDatabase(crypto, rows, key);
        if entry == None {
          return InvalidKey;
        }
        cache := cache[hash := entry.value];
      }
      if RoleLevel(entry.value.role) < LevelOf(needed) {
        return InsufficientRole;
      }
      return Authenticated(entry.value);
    }

    method BootstrapFirstApiKey(settings: BootstrapSettings, tokenValid: bool, name: string, made: Credentials)
      returns (response: Response)
      modifies this`rows
      ensures (Now(), response) == Handle(crypto, old(Now()), Bootstrap(settings, tokenValid, name, made))
    {
      if !settings.enabled {
        return Forbidden;
      }
      if |rows| > 0 && settings.autoDisable {
        return Forbidden;
      }
      if settings.requireToken && !tokenValid {
        return Forbidden;
      }
      var more := Created(rows, made, if name == "" then "Bootstrap-Key" else name, "admin");
      if more == None {
        return ServerError;
      }
      rows := more.value;
      return Bootstrapped(ApiKey(made));
    }

    method GenerateApiKey(name: string, role: string, made: Credentials) returns (response: Response)
      modifies this`rows
      ensures (Now(), response) == Handle(crypto, old(Now()), Generate(name, role, made))
    {
      if name == "" {
        return BadRequest;
      }
      var entityRole := if role == "" then "admin" else role;
      if entityRole !in ["admin", "operator", "viewer"] {
        return BadRequest;
      }
      var more := Created(rows, made, name, entityRole);
      if more == None {
        return ServerError;
      }
      rows := more.value;
      return Generated(ApiKey(made), made.id, entityRole);
    }

    method DeleteApiKey(id: nat) returns (response: Response)
      requires Unique(rows)
      modifies this
      ensures (Now(), response) == Handle(crypto, old(Now()), Delete(id))
    {
      var entity := FindByPk(rows, id);
      if entity == None {
        return NotFound;
      }
      FindByPkFinds(rows, id, entity.value);
      if IsLastActiveAdmin(rows, entity.value) {
        return Conflict;
      }
      rows := Destroyed(rows, id);
      PurgeApiKeyCacheEntry(entity.value.id);
      return Removed(id);
    }

    method RevokeApiKey(id: nat) returns (response: Response)
      requires Unique(rows)
      modifies this
      ensures (Now(), response) == Handle(crypto, old(Now()), Revoke(id))
    {
      var entity := FindByPk(rows, id);
      if entity == None {
        return NotFound;
      }
      FindByPkFinds(rows, id, entity.value);
      if IsLastActiveAdmin(rows, entity.value) {
        return Conflict;
      }
      rows := Deactivated(rows, id);
      PurgeApiKeyCacheEntry(entity.value.id);
      return Removed(id);
    }
  }

  // ---- The cache is transparent ----

  /** Every remembered verification is what the table would answer now. */
  ghost predicate Sound(c: Crypto, s: State) {
    Unique(s.rows) &&
    forall key :: c.sha(key) in s.cache ==> VerifyAgainstDatabase(c, s.rows, key) == Some(s.cache[c.sha(key)])
  }

  /** The table's answer to a key hangs on one row. */
  lemma AnswerOfRow(c: Crypto, rows: seq<Entity>, key: string, v: Verified)
    requires Unique(rows)
    ensures VerifyAgainstDatabase(c, rows, key) == Some(v) <==>
      exists e :: e in rows && e.active && KeyIdOf(key) == Some(e.keyId) && c.compare(key, e.hash) &&
        v == Verified(e.id, e.name, EffectiveRole(e.role))
  {
    if KeyIdOf(key).Some? {
      var keyId := KeyIdOf(key).value;
      forall e | e in rows ensures FindActive(rows, keyId) == Some(e) <==> e.keyId == keyId && e.active {
        FindActiveFinds(rows, keyId, e);
      }
      if FindActive(rows, keyId).Some? {
        FindActiveFinds(rows, keyId, FindActive(rows, keyId).value);
      }
    }
  }

  /** Rows other than the one with that id answer as before. */
  ghost predicate KeepsOthers(before: seq<Entity>, after: seq<Entity>, id: nat) {
    forall e :: e in before && e.id != id ==> e in after
  }

  lemma AnswerKept(c: Crypto, before: seq<Entity>, after: seq<Entity>, id: nat, key: string)
    requires Unique(before) && Unique(after) && KeepsOthers(before, after, id)
    requires VerifyAgainstDatabase(c, before, key).Some? && VerifyAgainstDatabase(c, before, key).value.id != id
    ensures VerifyAgainstDatabase(c, after, key) == VerifyAgainstDatabase(c, before, key)
  {
    var v := VerifyAgainstDatabase(c, before, key).value;
    AnswerOfRow(c, before, key, v);
    AnswerOfRow(c, after, key, v);
  }

  lemma CreatedRows(rows: seq<Entity>, made: Credentials, name: string, role: string)
    requires Unique(rows) && Created(rows, made, name, role).Some?
    ensures Unique(Created(rows, made, name, role).value)
    ensures forall e :: e in rows ==> e.id != made.id && e in Created(rows, made, name, role).value
  {
  }

  /** How a request changes the table: rows stay, except that a removal touches the row with its id. */
  lemma ReferenceRows(c: Crypto, rows: seq<Entity>, r: Request)
    requires Unique(rows)
    ensures var (after, response) := Reference(c, rows, r);
      Unique(after) &&
      (response.Removed? ==> KeepsOthers(rows, after, response.id)) &&
      (!response.Removed? ==> rows <= after)
  {
    match r
    case Bootstrap(_, _, name, made) =>
      if Reference(c, rows, r).1.Bootstrapped? {
        CreatedRows(rows, made, if name == "" then "Bootstrap-Key" else name, "admin");
      }
    case Generate(name, role, made) =>
      if Reference(c, rows, r).1.Generated? {
        CreatedRows(rows, made, name, EffectiveRole(role));
      }
    case Delete(id) => DestroyedRows(rows, id);
    case Revoke(id) =>
      DeactivatedRows(rows, id);
      forall e | e in rows && e.id != id ensures e in Deactivated(rows, id) {
        var i :| 0 <= i < |rows| && rows[i] == e;
        assert Deactivated(rows, id)[i] == e;
      }
    case Verify(_, _, _) =>
  }

  /** One request: the same table and response as without a cache, and the cache stays sound. */
  lemma HandleIsReference(c: Crypto, s: State, r: Request)
    requires Injective(c.sha) && Sound(c, s)
    ensures Reference(c, s.rows, r) == (Handle(c, s, r).0.rows, Handle(c, s, r).1)
    ensures Sound(c, Handle(c, s, r).0)
  {
    if !r.Verify? {
      ReferenceRows(c, s.rows, r);
      var (after, response) := Reference(c, s.rows, r);
      var t := Handle(c, s, r).0;
      forall key | c.sha(key) in t.cache ensures VerifyAgainstDatabase(c, after, key) == Some(t.cache[c.sha(key)]) {
        if response.Removed? {
          AnswerKept(c, s.rows, after, response.id, key);
        } else {
          AnswerKeptByMore(c, s.rows, after, key);
        }
      }
    }
  }

  lemma AnswerKeptByMore(c: Crypto, before: seq<Entity>, after: seq<Entity>, key: string)
    requires Unique(before) && Unique(after) && before <= after
    requires VerifyAgainstDatabase(c, before, key).Some?
    ensures VerifyAgainstDatabase(c, after, key) == VerifyAgainstDatabase(c, before, key)
  {
    var v := VerifyAgainstDatabase(c, before, key).value;
    AnswerOfRow(c, before, key, v);
    AnswerOfRow(c, after, key, v);
    forall e | e in before ensures e in after {
    }
  }

  function Run(c: Crypto, s: State, requests: seq<Request>): (State, seq<Response>) {
    if |requests| == 0 then (s, [])
    else
      var (middle, responses) := Run(c, s, Init(requests));
      var (end, response) := Handle(c, middle, Last(requests));
      (end, responses + [response])
  }

  function ReferenceRun(c: Crypto, rows: seq<Entity>, requests: seq<Request>): (seq<Entity>, seq<Response>) {
    if |requests| == 0 then (rows, [])
    else
      var (middle, responses) := ReferenceRun(c, rows, Init(requests));
      var (end, response) := Reference(c, middle, Last(requests));
      (end, responses + [response])
  }

  /** Over any run the responses and the table are those of a server that checks the table every time. */
  lemma {:induction false} CacheIsTransparent(c: Crypto, s: State, requests: seq<Request>)
    requires Injective(c.sha) && Sound(c, s)
    ensures ReferenceRun(c, s.rows, requests) == (Run(c, s, requests).0.rows, Run(c, s, requests).1)
    ensures Sound(c, Run(c, s, requests).0)
  {
    if |requests| > 0 {
      CacheIsTransparent(c, s, Init(requests));
      HandleIsReference(c, Run(c, s, Init(requests)).0, Last(requests));
    }
  }

  // ---- No lockout ----

  /** What the guard lets through leaves another active admin. */
  lemma AnotherAdmin(rows: seq<Entity>, removed: Entity) returns (keeper: Entity)
    requires Unique(rows) && HasActiveAdmin(rows) && removed in rows && !IsLastActiveAdmin(rows, removed)
    ensures keeper in rows && keeper.id != removed.id && ActiveAdmin(keeper)
  {
    var i :| 0 <= i < |rows| && ActiveAdmin(rows[i]);
    keeper := rows[i];
    if keeper.id == removed.id {
      var k :| 0 <= k < |rows| && rows[k].id != removed.id && rows[k].active && rows[k].role == "admin";
      keeper := rows[k];
    }
  }

  lemma AdminRemains(c: Crypto, rows: seq<Entity>, r: Request)
    requires Unique(rows) && HasActiveAdmin(rows)
    ensures HasActiveAdmin(Reference(c, rows, r).0)
  {
    ReferenceRows(c, rows, r);
    var (after, response) := Reference(c, rows, r);
    if !response.Removed? {
      var i :| 0 <= i < |rows| && ActiveAdmin(rows[i]);
      assert after[i] == rows[i];
    } else {
      var removed := FindByPk(rows, response.id).value;
      FindByPkFinds(rows, response.id, removed);
      var keeper := AnotherAdmin(rows, removed);
      var k :| 0 <= k < |after| && after[k] == keeper;
    }
  }

  /** Once there is an active admin key there always is one. */
  lemma {:induction false} NoLockout(c: Crypto, s: State, requests: seq<Request>)
    requires Injective(c.sha) && Sound(c, s) && HasActiveAdmin(s.rows)
    ensures HasActiveAdmin(Run(c, s, requests).0.rows)
  {
    if |requests| > 0 {
      NoLockout(c, s, Init(requests));
      CacheIsTransparent(c, s, Init(requests));
      var middle := Run(c, s, Init(requests)).0;
      AdminRemains(c, middle.rows, Last(requests));
      HandleIsReference(c, middle, Last(requests));
    }
  }

  /** Every role is spelt out: what bootstrap and generate write. */
  ghost predicate ProperRoles(rows: seq<Entity>) {
    forall e :: e in rows ==> RoleLevel(e.role) > 0
  }

  lemma HandlersWriteProperRoles(c: Crypto, rows: seq<Entity>, r: Request)
    requires ProperRoles(rows)
    ensures ProperRoles(Reference(c, rows, r).0)
  {
    match r
    case Delete(id) => DestroyedRows(rows, id);
    case Revoke(id) =>
      DeactivatedRows(rows, id);
      forall e | e in Deactivated(rows, id) ensures RoleLevel(e.role) > 0 {
        var i :| 0 <= i < |rows| && Deactivated(rows, id)[i] == e;
        assert rows[i] in rows;
      }
    case _ =>
  }

  lemma {:induction false} ReachableTables(c: Crypto, requests: seq<Request>)
    ensures Unique(ReferenceRun(c, [], requests).0) && ProperRoles(ReferenceRun(c, [], requests).0)
  {
    if |requests| > 0 {
      ReachableTables(c, Init(requests));
      HandlersWriteProperRoles(c, ReferenceRun(c, [], Init(requests)).0, Last(requests));
      ReferenceRows(c, ReferenceRun(c, [], Init(requests)).0, Last(requests));
    }
  }

  lemma AdminAmongOthers(rows: seq<Entity>, id: nat)
    ensures HasActiveAdmin(Destroyed(rows, id)) <==> exists x :: x in rows && x.id != id && ActiveAdmin(x)
  {
    DestroyedRows(rows, id);
    var rest := Destroyed(rows, id);
    if HasActiveAdmin(rest) {
      var k :| 0 <= k < |rest| && ActiveAdmin(rest[k]);
      assert rest[k] in rest;
    }
    if x :| x in rows && x.id != id && ActiveAdmin(x) {
      assert x in rest;
    }
  }

  /**
   On a table of any origin the guard is exact unless the other active admins all have an empty role, which verifies as
   admin but is not counted. No handler writes such a row.
   */
  lemma GuardOnAnyTable(rows: seq<Entity>, e: Entity)
    requires Unique(rows) && e in rows
    ensures (IsLastActiveAdmin(rows, e) <==> HasActiveAdmin(rows) && !HasActiveAdmin(Destroyed(rows, e.id))) <==>
      !(ActiveAdmin(e) &&
        (exists i :: 0 <= i < |rows| && rows[i].id != e.id && rows[i].active && rows[i].role == "") &&
        (forall i :: 0 <= i < |rows| && rows[i].id != e.id ==> !(rows[i].active && rows[i].role == "admin")))
  {
    AdminAmongOthers(rows, e.id);
    assert ActiveAdmin(e) ==> HasActiveAdmin(rows);
    if !ActiveAdmin(e) && HasActiveAdmin(rows) {
      var k :| 0 <= k < |rows| && ActiveAdmin(rows[k]);
      FindByPkFinds(rows, e.id, e);
      FindByPkFinds(rows, e.id, rows[k]);
      assert rows[k] in rows && rows[k].id != e.id;
    }
  }

  lemma GuardOnProperRoles(rows: seq<Entity>, e: Entity)
    requires Unique(rows) && ProperRoles(rows) && e in rows
    ensures IsLastActiveAdmin(rows, e) <==> HasActiveAdmin(rows) && !HasActiveAdmin(Destroyed(rows, e.id))
  {
    forall i | 0 <= i < |rows| ensures rows[i].role != "" {
      assert rows[i] in rows;
    }
    GuardOnAnyTable(rows, e);
  }

  /** On every table the handlers can build, the guard refuses exactly the removals that would leave no active admin. */
  lemma GuardIsExact(c: Crypto, requests: seq<Request>, e: Entity)
    requires e in ReferenceRun(c, [], requests).0
    ensures var rows := ReferenceRun(c, [], requests).0;
      IsLastActiveAdmin(rows, e) <==> HasActiveAdmin(rows) && !HasActiveAdmin(Destroyed(rows, e.id))
  {
    ReachableTables(c, requests);
    GuardOnProperRoles(ReferenceRun(c, [], requests).0, e);
  }

  // ---- Keys over their life ----

  predicate Removes(r: Request, id: nat) {
    (r.Delete? || r.Revoke?) && r.id == id
  }

  predicate Makes(r: Request, id: nat) {
    (r.Bootstrap? || r.Generate?) && r.made.id == id
  }

  lemma {:induction false} RowStays(c: Crypto, rows: seq<Entity>, requests: seq<Request>, e: Entity)
    requires Unique(rows) && e in rows
    requires forall i :: 0 <= i < |requests| ==> !Removes(requests[i], e.id)
    ensures Unique(ReferenceRun(c, rows, requests).0) && e in ReferenceRun(c, rows, requests).0
  {
    if |requests| > 0 {
      RowStays(c, rows, Init(requests), e);
      ReferenceRows(c, ReferenceRun(c, rows, Init(requests)).0, Last(requests));
    }
  }

  /** The roles that pass a requirement, written out. */
  predicate Passes(role: string, needed: Level) {
    match needed
    case Viewer => role == "viewer" || role == "operator" || role == "admin"
    case Operator => role == "operator" || role == "admin"
    case Admin => role == "admin"
  }

  lemma LevelsMeanRoles(v: Verified, needed: Level)
    ensures Authorize(Some(v), needed) == if Passes(v.role, needed) then Authenticated(v) else InsufficientRole
  {
  }

  lemma GeneratedRowStays(c: Crypto, s: State, generate: Request, requests: seq<Request>)
    requires Injective(c.sha) && Sound(c, s) && generate.Generate? && Handle(c, s, generate).1.Generated?
    requires forall i :: 0 <= i < |requests| ==> !Removes(requests[i], generate.made.id)
    ensures var end, made := Run(c, Handle(c, s, generate).0, requests).0, generate.made;
      Sound(c, end) &&
      Entity(made.id, made.keyId, made.hash, generate.name, EffectiveRole(generate.role), true) in end.rows
  {
    var start, made := Handle(c, s, generate).0, generate.made;
    var e := Entity(made.id, made.keyId, made.hash, generate.name, EffectiveRole(generate.role), true);
    HandleIsReference(c, s, generate);
    assert e in start.rows;
    CacheIsTransparent(c, start, requests);
    RowStays(c, start.rows, requests, e);
  }

  /** A generated key passes exactly what its role passes, after any run that does not delete or revoke it. */
  lemma GeneratedKeyWorks(c: Crypto, s: State, generate: Request, requests: seq<Request>, needed: Level)
    requires Injective(c.sha) && Sound(c, s) && generate.Generate? && WellMade(generate.made)
    requires c.compare(ApiKey(generate.made), generate.made.hash)
    requires Handle(c, s, generate).1.Generated?
    requires forall i :: 0 <= i < |requests| ==> !Removes(requests[i], generate.made.id)
    ensures var end := Run(c, Handle(c, s, generate).0, requests).0;
      var role := if generate.role == "" then "admin" else generate.role;
      Handle(c, end, Verify(ApiKey(generate.made), "", needed)).1 ==
        if Passes(role, needed) then Authenticated(Verified(generate.made.id, generate.name, role))
        else InsufficientRole
  {
    var made, role := generate.made, EffectiveRole(generate.role);
    var end := Run(c, Handle(c, s, generate).0, requests).0;
    GeneratedRowStays(c, s, generate, requests);
    GeneratedKeyHasItsId(made);
    AnswerOfRow(c, end.rows, ApiKey(made), Verified(made.id, generate.name, role));
    HandleIsReference(c, end, Verify(ApiKey(made), "", needed));
    LevelsMeanRoles(Verified(made.id, generate.name, role), needed);
  }

  ghost predicate NoActive(rows: seq<Entity>, id: nat) {
    forall e :: e in rows && e.active ==> e.id != id
  }

  lemma NobodyVerifiesAs(c: Crypto, rows: seq<Entity>, r: Request, id: nat)
    requires Unique(rows) && NoActive(rows, id) && !Makes(r, id)
    ensures NoActive(Reference(c, rows, r).0, id)
    ensures var response := Reference(c, rows, r).1; response.Authenticated? ==> response.entity.id != id
  {
    match r
    case Bootstrap(_, _, _, _) =>
    case Generate(_, _, _) =>
    case Delete(other) => DestroyedRows(rows, other);
    case Revoke(other) =>
      DeactivatedRows(rows, other);
      forall e | e in Deactivated(rows, other) && e.active ensures e in rows {
        var i :| 0 <= i < |rows| && Deactivated(rows, other)[i] == e;
        assert rows[i] in rows;
      }
    case Verify(x, a, _) =>
      var key := PresentedKey(x, a);
      if VerifyAgainstDatabase(c, rows, key).Some? {
        AnswerOfRow(c, rows, key, VerifyAgainstDatabase(c, rows, key).value);
      }
  }

  lemma {:induction false} NobodyVerifiesAsOver(c: Crypto, rows: seq<Entity>, requests: seq<Request>, id: nat)
    requires Unique(rows) && NoActive(rows, id)
    requires forall i :: 0 <= i < |requests| ==> !Makes(requests[i], id)
    ensures Unique(ReferenceRun(c, rows, requests).0) && NoActive(ReferenceRun(c, rows, requests).0, id)
    ensures forall i :: 0 <= i < |ReferenceRun(c, rows, requests).1| ==>
      var response := ReferenceRun(c, rows, requests).1[i];
      response.Authenticated? ==> response.entity.id != id
  {
    if |requests| > 0 {
      NobodyVerifiesAsOver(c, rows, Init(requests), id);
      NobodyVerifiesAs(c, ReferenceRun(c, rows, Init(requests)).0, Last(requests), id);
      ReferenceRows(c, ReferenceRun(c, rows, Init(requests)).0, Last(requests));
    }
  }

  /**
   After a deletion or revocation succeeded, no request authenticates as that entity, cached or not, until the id is
   given out again.
   */
  lemma RemovedNeverAuthenticates(c: Crypto, s: State, removal: Request, requests: seq<Request>)
    requires Injective(c.sha) && Sound(c, s) && (removal.Delete? || removal.Revoke?)
    requires Handle(c, s, removal).1.Removed?
    requires forall i :: 0 <= i < |requests| ==> !Makes(requests[i], removal.id)
    ensures var responses := Run(c, Handle(c, s, removal).0, requests).1;
      forall i :: 0 <= i < |responses| && responses[i].Authenticated? ==> responses[i].entity.id != removal.id
  {
    var start := Handle(c, s, removal).0;
    HandleIsReference(c, s, removal);
    DestroyedRows(s.rows, removal.id);
    DeactivatedRows(s.rows, removal.id);
    assert NoActive(start.rows, removal.id);
    CacheIsTransparent(c, start, requests);
    NobodyVerifiesAsOver(c, start.rows, requests, removal.id);
  }
}
