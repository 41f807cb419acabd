/** What each request is answered, and does to the table, said apart from the functions that compute it. */
module ApiKeysMeaning {
  import opened Wrappers
  import opened Strings
  import opened ApiKeys

  const START := State([], map[])

  // ---- Presenting a key ----

  /** The X-API-Key header stands; without it the word behind the first space of the Authorization header. */
  lemma KeyFromHeaders(key: string, scheme: string, rest: string)
    requires ' ' !in scheme && ' ' !in key
    ensures key != "" ==> PresentedKey(key, rest) == key
    ensures PresentedKey("", scheme + (" " + key)) == key
    ensures PresentedKey("", scheme + (" " + (key + (" " + rest)))) == key
    ensures PresentedKey("", scheme) == ""
  {
    SplitSolid(scheme, ' ');
    SplitSolid(key, ' ');
    SplitPiece(scheme, key, ' ');
    assert scheme + (" " + key) == scheme + [' '] + key;
    SplitPiece(key, rest, ' ');
    var tail := key + [' '] + rest;
    SplitPiece(scheme, tail, ' ');
    assert scheme + (" " + (key + (" " + rest))) == scheme + [' '] + tail;
  }

  predicate IsKeyOf(key: string, keyId: string, secret: string) {
    |keyId| == 16 && UrlSafe(keyId) && secret != "" && UrlSafe(secret) && key == "hw_" + keyId + "." + secret
  }

  /** The keys that have an id, and their ids. */
  lemma KeyIdExactly(key: string, keyId: string)
    ensures KeyIdOf(key) == Some(keyId) <==> exists secret :: IsKeyOf(key, keyId, secret)
  {
    if KeyIdOf(key) == Some(keyId) {
      assert key == key[..3] + key[3..19] + [key[19]] + key[20..];
      assert IsKeyOf(key, keyId, key[20..]);
    }
    if secret :| IsKeyOf(key, keyId, secret) {
      assert key[..3] == "hw_" && key[3..19] == keyId && key[19] == '.' && key[20..] == secret;
    }
  }

  // ---- Verifying ----

  /** The row a key stands for: active, of the id in the key, with a hash the key matches. */
  predicate StandsFor(c: Crypto, key: string, e: Entity) {
    e.active && KeyIdOf(key) == Some(e.keyId) && c.compare(key, e.hash)
  }

  lemma ReachedIsSound(c: Crypto, requests: seq<Request>)
    requires Injective(c.sha)
    ensures var s := Run(c, START, requests).0;
      Sound(c, s) && ProperRoles(s.rows) && s.rows == ReferenceRun(c, [], requests).0
  {
    CacheIsTransparent(c, START, requests);
    ReachableTables(c, requests);
  }

  /**
   After any run, a key that stands for an active row passes for a viewer always, for an operator exactly with the role
   operator or admin, and for an admin exactly with the role admin; otherwise its role is found insufficient.
   */
  lemma RolesDecide(c: Crypto, requests: seq<Request>, key: string, authorization: string, needed: Level, e: Entity)
    requires Injective(c.sha) && e in Run(c, START, requests).0.rows && StandsFor(c, key, e)
    ensures var response := Handle(c, Run(c, START, requests).0, Verify(key, authorization, needed)).1;
      e.role in {"viewer", "operator", "admin"} &&
      (response == Authenticated(Verified(e.id, e.name, e.role)) <==>
        needed == Viewer || (needed == Operator && e.role in {"operator", "admin"}) ||
        (needed == Admin && e.role == "admin")) &&
      (response != Authenticated(Verified(e.id, e.name, e.role)) ==> response == InsufficientRole)
  {
    var s := Run(c, START, requests).0;
    ReachedIsSound(c, requests);
    AnswerOfRow(c, s.rows, key, Verified(e.id, e.name, e.role));
    HandleIsReference(c, s, Verify(key, authorization, needed));
    LevelsMeanRoles(Verified(e.id, e.name, e.role), needed);
  }

  /** A key that stands for no row is invalid, and no key at all is missing. */
  lemma OthersAreRefused(c: Crypto, requests: seq<Request>, xApiKey: string, authorization: string, needed: Level)
    requires Injective(c.sha)
    requires forall e :: e in Run(c, START, requests).0.rows ==>
      !StandsFor(c, PresentedKey(xApiKey, authorization), e)
    ensures Handle(c, Run(c, START, requests).0, Verify(xApiKey, authorization, needed)).1 ==
      if PresentedKey(xApiKey, authorization) == "" then KeyMissing else InvalidKey
  {
    var s, key := Run(c, START, requests).0, PresentedKey(xApiKey, authorization);
    ReachedIsSound(c, requests);
    HandleIsReference(c, s, Verify(xApiKey, authorization, needed));
    if VerifyAgainstDatabase(c, s.rows, key).Some? {
      AnswerOfRow(c, s.rows, key, VerifyAgainstDatabase(c, s.rows, key).value);
    }
  }

  // ---- Making keys ----

  ghost predicate Unused(rows: seq<Entity>, made: Credentials) {
    forall e :: e in rows ==> e.id != made.id && e.keyId != made.keyId
  }

  lemma UnusedIsCreated(rows: seq<Entity>, made: Credentials, name: string, role: string)
    ensures Created(rows, made, name, role) ==
      if Unused(rows, made) then Some(rows + [Entity(made.id, made.keyId, made.hash, name, role, true)]) else None
  {
    if i :| 0 <= i < |rows| && (rows[i].id == made.id || rows[i].keyId == made.keyId) {
      assert rows[i] in rows;
    }
  }

  /**
   Bootstrap makes a key exactly when it is enabled, the table is empty or it stays open, the setup token is valid or
   none is asked for, and the new row is not in use; the row is an active admin. It is forbidden unless all of the
   first three.
   */
  lemma BootstrapExactly(
    c: Crypto, s: State, settings: BootstrapSettings, tokenValid: bool, name: string, made: Credentials)
    ensures var (after, response) := Handle(c, s, Bootstrap(settings, tokenValid, name, made));
      var open := settings.enabled && (s.rows == [] || !settings.autoDisable) && (tokenValid || !settings.requireToken);
      (response == Forbidden <==> !open) &&
      (response == ServerError <==> open && !Unused(s.rows, made)) &&
      (response == Bootstrapped("hw_" + made.keyId + "." + made.secret) <==> open && Unused(s.rows, made)) &&
      after.cache == s.cache &&
      after.rows == s.rows + if open && Unused(s.rows, made)
        then [Entity(made.id, made.keyId, made.hash, if name == "" then "Bootstrap-Key" else name, "admin", true)]
        else []
  {
    UnusedIsCreated(s.rows, made, if name == "" then "Bootstrap-Key" else name, "admin");
    assert s.rows + [] == s.rows;
  }

  /**
   Generate makes a key exactly when there is a name, the role is left out or one of the three, and the new row is not
   in use; a role left out is admin. Without a name or with another role the request is bad.
   */
  lemma GenerateExactly(c: Crypto, s: State, name: string, role: string, made: Credentials)
    ensures var (after, response) := Handle(c, s, Generate(name, role, made));
      var good := name != "" && role in {"", "viewer", "operator", "admin"};
      var given := if role == "" then "admin" else role;
      (response == BadRequest <==> !good) &&
      (response == ServerError <==> good && !Unused(s.rows, made)) &&
      (response == Generated("hw_" + made.keyId + "." + made.secret, made.id, given) <==>
        good && Unused(s.rows, made)) &&
      after.cache == s.cache &&
      after.rows == s.rows + if good && Unused(s.rows, made)
        then [Entity(made.id, made.keyId, made.hash, name, given, true)] else []
  {
    UnusedIsCreated(s.rows, made, name, EffectiveRole(role));
    assert s.rows + [] == s.rows;
  }

  // ---- Removing keys ----

  /** A removal is not found exactly without a row of that id, and succeeds on one that is not an active admin. */
  lemma RemovalExactly(c: Crypto, s: State, removal: Request)
    requires Unique(s.rows) && ProperRoles(s.rows) && (removal.Delete? || removal.Revoke?)
    ensures var response := Handle(c, s, removal).1;
      (response == NotFound <==> forall e :: e in s.rows ==> e.id != removal.id) &&
      (response == Conflict <==>
        (exists e :: e in s.rows && e.id == removal.id && e.active && e.role == "admin") &&
        forall e :: e in s.rows && e.active && e.role == "admin" ==> e.id == removal.id) &&
      (response != NotFound && response != Conflict ==> response == Removed(removal.id))
  {
    var id := removal.id;
    if FindByPk(s.rows, id).Some? {
      var e := FindByPk(s.rows, id).value;
      FindByPkFinds(s.rows, id, e);
      forall x | x in s.rows && x.id == id ensures x == e {
        FindByPkFinds(s.rows, id, x);
      }
      GuardByMembers(s.rows, e);
    } else {
      forall e | e in s.rows ensures e.id != id {
        FindByPkFinds(s.rows, id, e);
      }
    }
  }

  lemma GuardByMembers(rows: seq<Entity>, e: Entity)
    requires ProperRoles(rows) && e in rows
    ensures IsLastActiveAdmin(rows, e) <==>
      e.active && e.role == "admin" && forall x :: x in rows && x.active && x.role == "admin" ==> x.id == e.id
  {
    if IsLastActiveAdmin(rows, e) {
      forall x | x in rows && x.active && x.role == "admin" ensures x.id == e.id {
        var i :| 0 <= i < |rows| && rows[i] == x;
      }
    }
    forall i | 0 <= i < |rows| ensures rows[i] in rows {
    }
  }

  lemma RevokedRow(rows: seq<Entity>, id: nat, e: Entity)
    ensures e in Deactivated(rows, id) <==>
      if e.id == id then !e.active && exists was :: was in rows && e == was.(active := false) else e in rows
  {
    DeactivatedRows(rows, id);
    var after := Deactivated(rows, id);
    if e in after {
      var i :| 0 <= i < |after| && after[i] == e;
      assert rows[i] in rows;
    }
    if e.id != id && e in rows {
      var i :| 0 <= i < |rows| && rows[i] == e;
      assert after[i] in after;
    }
    if was :| was in rows && e == was.(active := false) && e.id == id {
      var i :| 0 <= i < |rows| && rows[i] == was;
      assert after[i] in after;
    }
  }

  /** Deleting takes the row away, revoking leaves it inactive; the others stay, and cached keys of the id go. */
  lemma RemovalEffect(c: Crypto, s: State, removal: Request)
    requires Handle(c, s, removal).1.Removed? && (removal.Delete? || removal.Revoke?)
    ensures var after := Handle(c, s, removal).0;
      (forall e: Entity :: e.id != removal.id ==> (e in after.rows <==> e in s.rows)) &&
      (forall e: Entity :: e.id == removal.id ==>
        (e in after.rows <==>
          removal.Revoke? && !e.active && exists was :: was in s.rows && e == was.(active := false))) &&
      (forall h :: h in after.cache <==> h in s.cache && s.cache[h].id != removal.id) &&
      (forall h :: h in after.cache ==> after.cache[h] == s.cache[h])
  {
    var id := removal.id;
    DestroyedRows(s.rows, id);
    forall e: Entity
      ensures e in Deactivated(s.rows, id) <==>
        if e.id == id then !e.active && exists was :: was in s.rows && e == was.(active := false) else e in s.rows
    {
      RevokedRow(s.rows, id, e);
    }
  }
}
