/** The REST variant of the backend (src/server.js): a `preHandler` hook that
    authenticates every POST against a process-wide secret map, and the route
    handlers for secrets, users, messages and likes.

    The model keeps the source's defects, each flagged where it sits: the
    issued secret is a constant, the hook looks the secret up under the raw
    header address while it is stored under the lower-cased one,
    `checkTokenExist` is not awaited, messages go to a `massage` collection,
    and an unlike deletes from the `token` collection. */
module Server {
  import opened Js
  import opened Counters
  import opened Mongo

  /** The text `getSecret` stores and sends. The random digest is passed to
      `concat`, whose result is discarded, so this constant is the secret of
      every address. */
  const SecretPrefix: string := "AMBRodeo authorization secret: "

  /** The `address` and `signature` request headers. */
  datatype Headers = Headers(address: Option<string>, signature: Option<string>)

  /** The fields of a JSON object body that the handlers read. */
  datatype Body = Body(
    tokenAddress: Option<string>,
    message: Option<string>,
    like: Option<bool>,
    userName: Option<string>,
    image: Option<string>)

  /** A reply body: `{}`, `{error: text}`, `{error: <exception>}` (the object
      or message of a runtime or library exception), `{token: "Token not found"}`
      or `{secret}`. */
  datatype Payload = Empty | ErrorText(text: string) | ThrownError | TokenNotFound | SecretIs(secret: string)

  datatype Reply = Reply(status: int, payload: Payload)

  /** What the hook does: let the request reach its route, or answer it itself. */
  datatype Gate = Continue | Halt(reply: Reply)

  datatype PostRoute = UserRoute | MessageRoute | LikeRoute

  const MissingCredentials: Reply := Reply(400, ErrorText("Missing address or signature in headers"))
  const BadSignature: Reply := Reply(401, ErrorText("Invalid signature"))
  const InvalidPayload: Reply := Reply(400, ErrorText("Invalid JSON payload"))

  /** `mapSecret.get(address)` with the header value as it arrived. */
  function StoredSecret(secrets: map<string, string>, address: Option<string>): Option<string> {
    if address.Some? then Get(secrets, address.value) else None
  }

  /** The `preHandler` hook. A request other than POST passes untouched. A
      POST without a signature, without an address, or without a stored
      secret under the raw header address gets 400; a signature ethers cannot
      read gets 400 from the `catch`; a signature that recovers to another
      address (compared case-insensitively) gets 401; and only a signature of
      the stored secret by the header address passes. */
  function PreHandler(secrets: map<string, string>, httpMethod: string, h: Headers, ethers: Ethers): (g: Gate)
    ensures httpMethod != "POST" ==> g == Continue
    ensures g == Halt(MissingCredentials) <==>
              httpMethod == "POST" &&
              (!Truthy(h.signature) || !Truthy(h.address) || !Truthy(StoredSecret(secrets, h.address)))
    ensures httpMethod == "POST" ==>
              (g == Continue <==>
                 && Truthy(h.signature) && Truthy(h.address) && Truthy(StoredSecret(secrets, h.address))
                 && var recovered := ethers.verifyMessage(StoredSecret(secrets, h.address), h.signature.value);
                    recovered.Some? && Lower(recovered.value) == Lower(h.address.value))
    ensures g == Halt(Reply(400, ThrownError)) <==>
              && httpMethod == "POST"
              && Truthy(h.signature) && Truthy(h.address) && Truthy(StoredSecret(secrets, h.address))
              && ethers.verifyMessage(StoredSecret(secrets, h.address), h.signature.value).None?
    ensures g == Halt(BadSignature) <==>
              && httpMethod == "POST"
              && Truthy(h.signature) && Truthy(h.address) && Truthy(StoredSecret(secrets, h.address))
              && var recovered := ethers.verifyMessage(StoredSecret(secrets, h.address), h.signature.value);
                 recovered.Some? && Lower(recovered.value) != Lower(h.address.value)
    ensures g.Halt? ==> g.reply.status == 400 || g.reply == BadSignature
  {
    if httpMethod != "POST" then Continue
    else
      var secret := StoredSecret(secrets, h.address);
      if !Truthy(h.signature) || !Truthy(h.address) || !Truthy(secret) then Halt(MissingCredentials)
      else
        match ethers.verifyMessage(secret, h.signature.value)
        case None => Halt(Reply(400, ThrownError))
        case Some(recovered) =>
          if Lower(recovered) != Lower(h.address.value) then Halt(BadSignature) else Continue
  }

  /** What `getSecret` leaves in the map: lower-cased keys, each holding the constant. */
  predicate IssuedSecrets(secrets: map<string, string>) {
    forall k | k in secrets :: Lower(k) == k && secrets[k] == SecretPrefix
  }

  /** Secrets are stored under the lower-cased address but looked up under the
      raw header, so a POST whose header address has an upper-case letter is
      always refused as missing credentials. */
  lemma MixedCaseAddressRefused(secrets: map<string, string>, h: Headers, ethers: Ethers)
    requires IssuedSecrets(secrets)
    requires h.address.Some? && Lower(h.address.value) != h.address.value
    ensures PreHandler(secrets, "POST", h, ethers) == Halt(MissingCredentials)
  {
  }

  /** Issue, then sign: once `getSecret` has stored the secret under a
      lower-case address, a POST carrying that address and a signature of the
      secret that recovers to it (in any letter case) passes the hook. */
  lemma IssueThenSignPasses(secrets: map<string, string>, a: string, s: string, recovered: string, ethers: Ethers)
    requires a != "" && Lower(a) == a
    requires s != ""
    requires ethers.verifyMessage(Some(SecretPrefix), s) == Some(recovered)
    requires Lower(recovered) == a
    ensures PreHandler(secrets[a := SecretPrefix], "POST", Headers(Some(a), Some(s)), ethers) == Continue
  {
  }

  /** Issuing a secret again never invalidates a signature the hook accepted:
      the stored value is the same constant before and after. */
  lemma ReissueKeepsSignatureValid(secrets: map<string, string>, a: string, h: Headers, ethers: Ethers)
    requires IssuedSecrets(secrets)
    requires PreHandler(secrets, "POST", h, ethers) == Continue
    ensures PreHandler(secrets[Lower(a) := SecretPrefix], "POST", h, ethers) == Continue
  {
  }

  /** The shared front of `addMessage` and `addOrDeleteLike`: the body must be
      an object; `tokenAddress.toLowerCase()` throws on an undefined token
      address (500); a non-address is refused with 500 "Invalid address". */
  datatype Checked = Rejected(reply: Reply) | Accepted(tokenAddress: string)

  function TokenField(body: Option<Body>, ethers: Ethers): (c: Checked)
    ensures body.None? ==> c == Rejected(InvalidPayload)
    ensures body.Some? && body.value.tokenAddress.None? ==> c == Rejected(Reply(500, ThrownError))
    ensures body.Some? && body.value.tokenAddress.Some? ==>
              if ethers.isAddress(Lower(body.value.tokenAddress.value))
              then c == Accepted(Lower(body.value.tokenAddress.value))
              else c == Rejected(Reply(500, ErrorText("Invalid address")))
    ensures c.Accepted? ==> Lower(c.tokenAddress) == c.tokenAddress && ethers.isAddress(c.tokenAddress)
  {
    if body.None? then Rejected(InvalidPayload)
    else if body.value.tokenAddress.None? then Rejected(Reply(500, ThrownError))
    else
      var t := Lower(body.value.tokenAddress.value);
      assert Lower(t) == t;
      if !ethers.isAddress(t) then Rejected(Reply(500, ErrorText("Invalid address")))
      else Accepted(t)
  }

  /** The token table after `checkTokenExist(t)`. */
  function ResolvedTokens(tokens: map<string, int>, t: string, subgraph: Subgraph): map<string, int> {
    if t !in tokens && subgraph(t) == Some(t) then tokens[t := 0] else tokens
  }

  class RestService {
    /** `mapSecret`. */
    var secrets: map<string, string>
    const db: Db

    predicate Valid()
      reads this
    {
      IssuedSecrets(secrets)
    }

    constructor (db: Db)
      ensures Valid() && this.db == db && secrets == map[]
    {
      this.db := db;
      secrets := map[];
    }

    /** `getSecret` (a GET route, so the hook lets it through): lower-cases
        the header address (a TypeError when it is missing, answered 500),
        refuses a non-address with 500, and otherwise stores and sends the
        constant secret. */
    method GetSecret(h: Headers, ethers: Ethers) returns (r: Reply)
      requires Valid()
      modifies this`secrets
      ensures Valid()
      ensures h.address.None? ==> r == Reply(500, ThrownError) && secrets == old(secrets)
      ensures h.address.Some? && !ethers.isAddress(Lower(h.address.value)) ==>
                r == Reply(500, ErrorText("Invalid address")) && secrets == old(secrets)
      ensures h.address.Some? && ethers.isAddress(Lower(h.address.value)) ==>
                r == Reply(200, SecretIs(SecretPrefix)) &&
                secrets == old(secrets)[Lower(h.address.value) := SecretPrefix]
    {
      if h.address.None? {
        return Reply(500, ThrownError);
      }
      var address := Lower(h.address.value);
      if !ethers.isAddress(address) {
        return Reply(500, ErrorText("Invalid address"));
      }
      var secret := SecretPrefix;
      // secret.concat(<random digest>): the concatenation is computed and dropped
      secrets := secrets[address := secret];
      r := Reply(200, SecretIs(secret));
    }

    /** `checkTokenExist`: true for a stored token; otherwise asks the
        subgraph and, on a matching id, stores `{tokenAddress, like: 0}` and
        answers true; false when the subgraph call fails; undefined (None)
        when the id differs. */
    method CheckTokenExist(t: string, subgraph: Subgraph) returns (r: Option<bool>)
      modifies db`tokens
      ensures db.tokens == ResolvedTokens(old(db.tokens), t, subgraph)
      ensures t in old(db.tokens) ==> r == Some(true)
      ensures t !in old(db.tokens) && subgraph(t).None? ==> r == Some(false)
      ensures t !in old(db.tokens) && subgraph(t) == Some(t) ==> r == Some(true)
      ensures t !in old(db.tokens) && subgraph(t).Some? && subgraph(t).value != t ==> r == None
      ensures old(db.CountersInSync()) ==> db.CountersInSync()
    {
      var found := db.FindToken(t);
      if found {
        return Some(true);
      }
      var response := subgraph(t);
      if response.None? {
        return Some(false);
      }
      if t == response.value {
        ghost var before := db.tokens;
        db.UpsertToken(t);
        if InSync(db.likes, before) {
          FreshTokenKeepsSync(db.likes, before, t);
        }
        return Some(true);
      }
      r := None;
    }

    /** `addMessage`: after the body and token checks, the resolver runs but
        its result is never looked at (the call is not awaited and the guard
        negates a Promise, which is truthy), so no request is answered 404;
        the document `{address, tokenAddress, message}` goes to the `massage`
        collection, with the header address as sent and the message possibly
        undefined. The `message` collection that `getMessages` reads is never
        written. */
    twostate predicate AddMessageOutcome(address: string, body: Option<Body>, ethers: Ethers, subgraph: Subgraph,
                                         new r: Reply)
      reads this, db
    {
      && secrets == old(secrets)
      && db.likes == old(db.likes) && db.users == old(db.users) && db.messages == old(db.messages)
      && r.status != 404
      && (TokenField(body, ethers).Rejected? ==>
            r == TokenField(body, ethers).reply && db.tokens == old(db.tokens) && db.massages == old(db.massages))
      && (TokenField(body, ethers).Accepted? ==>
            var t := TokenField(body, ethers).tokenAddress;
            r == Reply(200, Empty) &&
            db.tokens == ResolvedTokens(old(db.tokens), t, subgraph) &&
            db.massages == old(db.massages) + [Msg(address, t, body.value.message)])
    }

    method AddMessage(address: string, body: Option<Body>, ethers: Ethers, subgraph: Subgraph) returns (r: Reply)
      modifies db`tokens, db`massages
      ensures AddMessageOutcome(address, body, ethers, subgraph, r)
      ensures old(db.CountersInSync()) ==> db.CountersInSync()
    {
      var checked := TokenField(body, ethers);
      if checked.Rejected? {
        return checked.reply;
      }
      var t := checked.tokenAddress;
      // not awaited: `!checkTokenExist(...)` is `!<Promise>`, always false
      var _ := CheckTokenExist(t, subgraph);
      db.InsertMassage(Msg(address, t, body.value.message));
      r := Reply(200, Empty);
    }

    /** `addOrUpdateUser`: refuses a non-object body with 400; otherwise the
        user document keyed by the header address is replaced by
        `{address, userName, image}`. */
    twostate predicate AddOrUpdateUserOutcome(address: string, body: Option<Body>, new r: Reply)
      reads this, db
    {
      && secrets == old(secrets)
      && db.likes == old(db.likes) && db.tokens == old(db.tokens)
      && db.messages == old(db.messages) && db.massages == old(db.massages)
      && (body.None? ==> r == InvalidPayload && db.users == old(db.users))
      && (body.Some? ==>
            r == Reply(200, Empty) &&
            db.users == old(db.users)[address := User(body.value.userName, body.value.image)])
    }

    method AddOrUpdateUser(address: string, body: Option<Body>) returns (r: Reply)
      modifies db`users
      ensures AddOrUpdateUserOutcome(address, body, r)
    {
      if body.None? {
        return InvalidPayload;
      }
      db.UpsertUser(address, User(body.value.userName, body.value.image));
      r := Reply(200, Empty);
    }

    /** `addOrDeleteLike`: after the body and token checks and the unawaited
        resolver, a truthy `like` is the like half of a `Toggle` step (the
        counter moves only when the upsert inserted). A falsy `like` deletes
        from the `token` collection with filter `{address, tokenAddress}`,
        which matches nothing, so an unlike changes neither rows nor counters. */
    twostate predicate AddOrDeleteLikeOutcome(address: string, body: Option<Body>, ethers: Ethers, subgraph: Subgraph,
                                              new r: Reply)
      reads this, db
    {
      && secrets == old(secrets)
      && db.messages == old(db.messages) && db.massages == old(db.massages) && db.users == old(db.users)
      && r.status != 404
      && (TokenField(body, ethers).Rejected? ==>
            r == TokenField(body, ethers).reply && db.tokens == old(db.tokens) && db.likes == old(db.likes))
      && (TokenField(body, ethers).Accepted? ==>
            var t := TokenField(body, ethers).tokenAddress;
            var resolved := ResolvedTokens(old(db.tokens), t, subgraph);
            && r == Reply(200, Empty)
            && (body.value.like == Some(true) ==>
                  (db.likes, db.tokens) == Toggle(old(db.likes), resolved, address, t, true))
            && (body.value.like != Some(true) ==>
                  db.likes == old(db.likes) && db.tokens == resolved))
    }

    method AddOrDeleteLike(address: string, body: Option<Body>, ethers: Ethers, subgraph: Subgraph)
      returns (r: Reply)
      modifies db`tokens, db`likes
      ensures AddOrDeleteLikeOutcome(address, body, ethers, subgraph, r)
    {
      var checked := TokenField(body, ethers);
      if checked.Rejected? {
        return checked.reply;
      }
      var t := checked.tokenAddress;
      // not awaited: `!checkTokenExist(...)` is `!<Promise>`, always false
      var _ := CheckTokenExist(t, subgraph);
      if body.value.like == Some(true) {
        var upsertedCount := db.UpsertLike(address, t);
        if upsertedCount == 1 {
          db.IncrementLike(t, 1);
        }
      } else {
        // the source decrements the counter when deletedCount == 1, which never holds
        var deletedCount := db.DeleteTokenByAddress(address, t);
        assert deletedCount == 0;
      }
      r := Reply(200, Empty);
    }

    /** A POST as Fastify runs it: the hook first, then the route handler with
        the header address (present once the hook has passed). */
    method HandlePost(route: PostRoute, h: Headers, body: Option<Body>, ethers: Ethers, subgraph: Subgraph)
      returns (r: Reply)
      modifies db`tokens, db`likes, db`massages, db`users
      ensures PreHandler(secrets, "POST", h, ethers).Halt? ==>
                r == PreHandler(secrets, "POST", h, ethers).reply && unchanged(db)
      ensures PreHandler(secrets, "POST", h, ethers).Continue? ==>
                && h.address.Some?
                && (Valid() ==> Lower(h.address.value) == h.address.value)
                && match route
                   case UserRoute => AddOrUpdateUserOutcome(h.address.value, body, r)
                   case MessageRoute => AddMessageOutcome(h.address.value, body, ethers, subgraph, r)
                   case LikeRoute => AddOrDeleteLikeOutcome(h.address.value, body, ethers, subgraph, r)
      ensures db.messages == old(db.messages)
      ensures old(db.CountersInSync()) && route != LikeRoute ==> db.CountersInSync()
    {
      var gate := PreHandler(secrets, "POST", h, ethers);
      if gate.Halt? {
        return gate.reply;
      }
      var address := h.address.value;
      match route
      case UserRoute => r := AddOrUpdateUser(address, body);
      case MessageRoute => r := AddMessage(address, body, ethers, subgraph);
      case LikeRoute => r := AddOrDeleteLike(address, body, ethers, subgraph);
    }
  }
}
