/** The JSON-RPC variant of the backend (src/handlers.ts): one endpoint whose
    requests name a method, a process-wide secret map, and handlers that check
    the caller's signature, resolve tokens through the subgraph and keep the
    token like counters in step with the like rows.

    The model keeps the source's defects, each flagged where it sits:
    the signature guard is inverted, the secret is stored under the literal
    key "address", and every handler exception reaches the client as
    `internalError`. */
module Handlers {
  import opened Js
  import opened Counters
  import opened Mongo

  /** What a handler throws: a `JsonRpcError.invalidParams(data)`, a
      `JsonRpcError.internalError(...)`, or a plain exception from the runtime
      or a library (a `TypeError` on `undefined.toLowerCase()`, an ethers error). */
  datatype Fault = InvalidParams(data: string) | InternalError | LibraryError

  datatype Result<T> = Ok(value: T) | Err(fault: Fault)

  /** The `params` object of a request (the fields of `RPCParams`). */
  datatype Params = Params(
    address: Option<string>,
    signature: Option<string>,
    userName: Option<string>,
    tokenAddress: Option<string>,
    image: Option<string>,
    message: Option<string>,
    like: Option<bool>,
    limit: Option<int>,
    skip: Option<int>)

  /** The `result` a handler returns on success. A listing carries the
      matching documents and the `skip`/`limit` values handed to the cursor. */
  datatype Reply =
    | SecretIssued(address: string, secret: string)
    | Done(message: string)
    | TokenFound(like: Option<int>)
    | MessagePage(matching: seq<Msg>, skip: int, limit: int)
    | LikePage(rows: set<Row>, skip: int, limit: int)
    | UserFound(user: Option<User>)

  /** The normalised caller and token of a like or message request. */
  datatype Target = Target(address: string, tokenAddress: string)

  // ---------------------------------------------------------------------------
  // JSON-RPC envelope (error codes of section 5.1 of the JSON-RPC 2.0 specification)

  const InvalidRequestCode: int := -32600
  const MethodNotFoundCode: int := -32601
  const InvalidParamsCode: int := -32602
  const InternalErrorCode: int := -32603

  datatype Id = Num(n: int) | Str(s: string)

  /** What `jsonrpc.parseObject` makes of the body: a request, or anything else
      (a notification, a response, an invalid object). An absent `params` is None. */
  datatype Incoming = Request(id: Id, methodName: string, params: Option<Params>) | NotARequest

  datatype RpcError = RpcError(code: int, data: string)

  datatype RpcPayload = Answer(result: Reply) | Failed(error: RpcError)

  /** A response object; `id` is None for `null`. */
  datatype Response = Response(id: Option<Id>, payload: RpcPayload)

  datatype RpcMethod =
    RpcGetSecret | RpcAddUser | RpcAddMessage | RpcAddLike | RpcGetToken | RpcGetMessages | RpcGetUserLikes | RpcGetUser

  function MethodName(m: RpcMethod): string {
    match m
    case RpcGetSecret => "getSecret"
    case RpcAddUser => "addUser"
    case RpcAddMessage => "addMessage"
    case RpcAddLike => "addLike"
    case RpcGetToken => "getToken"
    case RpcGetMessages => "getMessages"
    case RpcGetUserLikes => "getUserLikes"
    case RpcGetUser => "getUser"
  }

  /** The `switch (method)`: a method name is routed exactly when it is the
      name of one of the eight handlers, and then to that handler. */
  function Route(name: string): (r: Option<RpcMethod>)
    ensures r.Some? ==> MethodName(r.value) == name
    ensures r.None? ==> forall m :: MethodName(m) != name
  {
    match name
    case "getSecret" => Some(RpcGetSecret)
    case "addUser" => Some(RpcAddUser)
    case "addMessage" => Some(RpcAddMessage)
    case "addLike" => Some(RpcAddLike)
    case "getToken" => Some(RpcGetToken)
    case "getMessages" => Some(RpcGetMessages)
    case "getUserLikes" => Some(RpcGetUserLikes)
    case "getUser" => Some(RpcGetUser)
    case _ => None
  }

  lemma RouteMethodName(m: RpcMethod)
    ensures Route(MethodName(m)) == Some(m)
  {
  }

  /** The `try`/`catch` around the dispatch: a handler's result is answered
      with the request's id, and every exception it throws, whatever its kind,
      is answered with `internalError("Internal error")`. */
  function Respond(id: Id, outcome: Result<Reply>): (resp: Response)
    ensures resp.id == Some(id)
    ensures resp.payload.Answer? <==> outcome.Ok?
    ensures outcome.Ok? ==> resp.payload.result == outcome.value
    ensures outcome.Err? ==> resp.payload.error == RpcError(InternalErrorCode, "Internal error")
    ensures resp.payload.Failed? ==> resp.payload.error.code != InvalidParamsCode
  {
    match outcome
    case Ok(v) => Response(Some(id), Answer(v))
    case Err(_) => Response(Some(id), Failed(RpcError(InternalErrorCode, "Internal error")))
  }

  // ---------------------------------------------------------------------------
  // Signature check

  /** `validateSignature`: rejects a non-address, then asks ethers who signed
      the stored secret for the lower-cased address (a missing signature is
      "0x") and compares that with the lower-cased address. ethers reports the
      recovered address in its checksummed form and the comparison is exact. */
  function ValidateSignature(secrets: map<string, string>, address: string, signature: Option<string>, ethers: Ethers)
    : (r: Result<bool>)
    ensures r == Err(InvalidParams("Invalid address")) <==> !ValidAddress(ethers, Lower(address))
    ensures r == Err(LibraryError) <==>
              ValidAddress(ethers, Lower(address)) &&
              ethers.verifyMessage(Get(secrets, Lower(address)), OrDefault(signature, "0x")).None?
    ensures r == Ok(true) <==>
              ValidAddress(ethers, Lower(address)) &&
              ethers.verifyMessage(Get(secrets, Lower(address)), OrDefault(signature, "0x")) == Some(Lower(address))
    ensures r == Ok(false) <==>
              && ValidAddress(ethers, Lower(address))
              && var recovered := ethers.verifyMessage(Get(secrets, Lower(address)), OrDefault(signature, "0x"));
                 recovered.Some? && recovered.value != Lower(address)
  {
    var a := Lower(address);
    if !ValidAddress(ethers, a) then Err(InvalidParams("Invalid address"))
    else
      match ethers.verifyMessage(Get(secrets, a), OrDefault(signature, "0x"))
      case None => Err(LibraryError)
      case Some(recovered) => Ok(a == recovered)
  }

  /** The guard `if (validateSignature(...)) throw invalidParams("Invalid signature")`
      of addUser, addMessage, addLike and getUserLikes. It is INVERTED in the
      source: the request goes on exactly when the signature does NOT match,
      and a matching signature is refused. */
  function SignatureGate(secrets: map<string, string>, address: string, signature: Option<string>, ethers: Ethers)
    : (r: Result<()>)
    ensures r.Ok? <==> ValidateSignature(secrets, address, signature, ethers) == Ok(false)
    ensures ValidateSignature(secrets, address, signature, ethers) == Ok(true) ==>
              r == Err(InvalidParams("Invalid signature"))
    ensures ValidateSignature(secrets, address, signature, ethers).Err? ==>
              r == Err(ValidateSignature(secrets, address, signature, ethers).fault)
  {
    match ValidateSignature(secrets, address, signature, ethers)
    case Err(f) => Err(f)
    case Ok(true) => Err(InvalidParams("Invalid signature"))
    case Ok(false) => Ok(())
  }

  /** A caller whose signature is a genuine signature of its stored secret is
      refused, and a caller whose signature recovers to some other address is
      let through. */
  lemma InvertedGate(secrets: map<string, string>, address: string, signature: Option<string>, ethers: Ethers)
    requires ValidAddress(ethers, Lower(address))
    requires ethers.verifyMessage(Get(secrets, Lower(address)), OrDefault(signature, "0x")).Some?
    ensures var recovered := ethers.verifyMessage(Get(secrets, Lower(address)), OrDefault(signature, "0x")).value;
            SignatureGate(secrets, address, signature, ethers).Ok? <==> recovered != Lower(address)
  {
  }

  /** What `getSecret` leaves in `mapSecret`: no key other than the literal "address". */
  predicate KeyedByLiteral(secrets: map<string, string>) {
    forall k | k in secrets :: k == "address"
  }

  /** No caller gets past the guard, whatever it signs: `mapSecret` has no
      entry under any real address, so `validateSignature` hands ethers an
      undefined secret, and ethers throws on it. */
  lemma NoCallerPassesGate(secrets: map<string, string>, address: string, signature: Option<string>, ethers: Ethers)
    requires KeyedByLiteral(secrets)
    requires !ethers.isAddress("address")
    requires ThrowsOnUndefinedMessage(ethers)
    ensures SignatureGate(secrets, address, signature, ethers).Err?
  {
  }

  // ---------------------------------------------------------------------------
  // Argument normalisation

  /** The checks addMessage and addLike make before touching the database, in
      order: lower-case the address (a TypeError when it is undefined), default
      the token address to "0x" and lower-case it, the signature guard, then
      the token address must be an address. */
  function TokenTarget(secrets: map<string, string>, p: Params, ethers: Ethers): (r: Result<Target>)
    ensures p.address.None? ==> r == Err(LibraryError)
    ensures p.address.Some? && SignatureGate(secrets, Lower(p.address.value), p.signature, ethers).Err? ==>
              r == Err(SignatureGate(secrets, Lower(p.address.value), p.signature, ethers).fault)
    ensures r.Ok? <==>
              && p.address.Some?
              && SignatureGate(secrets, Lower(p.address.value), p.signature, ethers).Ok?
              && ValidAddress(ethers, Lower(OrDefault(p.tokenAddress, "0x")))
    ensures r.Ok? ==> r.value == Target(Lower(p.address.value), Lower(OrDefault(p.tokenAddress, "0x")))
    ensures r.Err? && p.address.Some? && SignatureGate(secrets, Lower(p.address.value), p.signature, ethers).Ok? ==>
              r == Err(InvalidParams("Invalid address"))
  {
    if p.address.None? then Err(LibraryError)
    else
      var address := Lower(p.address.value);
      var tokenAddress := Lower(OrDefault(p.tokenAddress, "0x"));
      match SignatureGate(secrets, address, p.signature, ethers)
      case Err(f) => Err(f)
      case Ok(_) =>
        if !ValidAddress(ethers, tokenAddress) then Err(InvalidParams("Invalid address"))
        else Ok(Target(address, tokenAddress))
  }

  /** A request without a token address is refused: the default "0x" is not
      an address. */
  lemma MissingTokenRejected(secrets: map<string, string>, p: Params, ethers: Ethers)
    requires !ethers.isAddress("0x")
    requires !Truthy(p.tokenAddress)
    ensures TokenTarget(secrets, p, ethers).Err?
  {
    assert Lower("0x") == "0x";
  }

  /** addMessage's further check: the message must be neither undefined nor empty. */
  function MessageText(secrets: map<string, string>, p: Params, ethers: Ethers): (r: Result<(Target, string)>)
    ensures r.Ok? <==> TokenTarget(secrets, p, ethers).Ok? && Truthy(p.message)
    ensures r.Ok? ==> r.value == (TokenTarget(secrets, p, ethers).value, p.message.value)
    ensures TokenTarget(secrets, p, ethers).Err? ==> r == Err(TokenTarget(secrets, p, ethers).fault)
    ensures TokenTarget(secrets, p, ethers).Ok? && !Truthy(p.message) ==> r == Err(InvalidParams("Message is empty"))
  {
    match TokenTarget(secrets, p, ethers)
    case Err(f) => Err(f)
    case Ok(target) =>
      if p.message.None? || p.message.value == "" then Err(InvalidParams("Message is empty"))
      else Ok((target, p.message.value))
  }

  /** The documents of the `message` collection for token `t`, in stored order. */
  function MessagesFor(ms: seq<Msg>, t: string): (r: seq<Msg>)
    ensures |r| <= |ms|
    ensures forall m :: m in r <==> m in ms && m.tokenAddress == t
    ensures forall m :: multiset(r)[m] == if m.tokenAddress == t then multiset(ms)[m] else 0
  {
    if ms == [] then []
    else
      assert ms == [ms[0]] + ms[1..];
      (if ms[0].tokenAddress == t then [ms[0]] else []) + MessagesFor(ms[1..], t)
  }

  /** The handlers whose first step is the signature guard. */
  predicate SignedMethod(m: RpcMethod) {
    m.RpcAddUser? || m.RpcAddMessage? || m.RpcAddLike? || m.RpcGetUserLikes?
  }

  // ---------------------------------------------------------------------------
  // The handlers, over the module-level `mapSecret` and the database

  class RpcService {
    /** `mapSecret`. */
    var secrets: map<string, string>
    const db: Db

    constructor (db: Db)
      ensures this.db == db && secrets == map[]
      ensures KeyedByLiteral(secrets)
    {
      this.db := db;
      secrets := map[];
    }

    /** Neither the secret map nor any collection has changed. */
    twostate predicate Untouched()
      reads this, db
    {
      secrets == old(secrets) && unchanged(db)
    }

    /** The outcome of `getSecret`: the address as given (not lower-cased) is
        checked, then the new secret is stored under the literal key "address"
        rather than under the caller's address, so the entry
        `validateSignature` reads for the caller is never written. */
    twostate predicate GetSecretOutcome(p: Params, ethers: Ethers, digest: string, new r: Result<Reply>)
      reads this, db
    {
      && unchanged(db)
      && if p.address.Some? && ValidAddress(ethers, p.address.value)
         then r == Ok(SecretIssued(p.address.value, digest)) && secrets == old(secrets)["address" := digest]
         else r == Err(InvalidParams("Invalid address")) && secrets == old(secrets)
    }

    /** `getSecret`. `digest` is the sha256 hex digest of 32 random bytes. */
    method GetSecret(p: Params, ethers: Ethers, digest: string) returns (r: Result<Reply>)
      modifies this`secrets
      ensures GetSecretOutcome(p, ethers, digest, r)
      ensures forall k | k != "address" :: Get(secrets, k) == Get(old(secrets), k)
      ensures old(KeyedByLiteral(secrets)) ==> KeyedByLiteral(secrets)
    {
      if p.address.None? || !ValidAddress(ethers, p.address.value) {
        return Err(InvalidParams("Invalid address"));
      }
      secrets := secrets["address" := digest];
      r := Ok(SecretIssued(p.address.value, digest));
    }

    /** `addToken`: asks the subgraph; on a matching id stores `{tokenAddress,
        like: 0}` and answers true, on another id answers false, and on a
        failure throws `internalError`. */
    method AddToken(t: string, subgraph: Subgraph) returns (r: Result<bool>)
      modifies db`tokens
      ensures subgraph(t).None? ==> r == Err(InternalError) && db.tokens == old(db.tokens)
      ensures subgraph(t) == Some(t) ==> r == Ok(true) && db.tokens == old(db.tokens)[t := 0]
      ensures subgraph(t).Some? && subgraph(t).value != t ==> r == Ok(false) && db.tokens == old(db.tokens)
      ensures old(db.CountersInSync()) && t !in old(db.tokens) ==> db.CountersInSync()
    {
      ghost var before := db.tokens;
      var response := subgraph(t);
      if response.None? {
        return Err(InternalError);
      }
      if t == response.value {
        db.UpsertToken(t);
        if InSync(db.likes, before) && t !in before {
          FreshTokenKeepsSync(db.likes, before, t);
        }
        return Ok(true);
      }
      r := Ok(false);
    }

    /** The outcome of `addUser`: the inverted signature guard, then the user
        document keyed by the lower-cased address is replaced by
        `{address, userName, image}`; nothing else changes. */
    twostate predicate AddUserOutcome(p: Params, ethers: Ethers, new r: Result<Reply>)
      reads this, db
    {
      && secrets == old(secrets)
      && db.likes == old(db.likes) && db.tokens == old(db.tokens)
      && db.messages == old(db.messages) && db.massages == old(db.massages)
      && (p.address.None? ==> r == Err(LibraryError) && db.users == old(db.users))
      && (p.address.Some? ==>
            var gate := SignatureGate(secrets, Lower(p.address.value), p.signature, ethers);
            && (gate.Err? ==> r == Err(gate.fault) && db.users == old(db.users))
            && (gate.Ok? ==> r == Ok(Done("User add successfully")) &&
                             db.users == old(db.users)[Lower(p.address.value) := User(p.userName, p.image)]))
    }

    method AddUser(p: Params, ethers: Ethers) returns (r: Result<Reply>)
      modifies db`users
      ensures AddUserOutcome(p, ethers, r)
    {
      if p.address.None? {
        return Err(LibraryError);
      }
      var address := Lower(p.address.value);
      var gate := SignatureGate(secrets, address, p.signature, ethers);
      if gate.Err? {
        return Err(gate.fault);
      }
      db.UpsertUser(address, User(p.userName, p.image));
      r := Ok(Done("User add successfully"));
    }

    /** The outcome of `addMessage`: after the argument checks, a token that
        is neither stored nor confirmed by the subgraph is refused, and
        otherwise exactly one message `{address, tokenAddress, message}` with
        both addresses lower-cased is appended. The token lookup sits inside
        the `try`, so both the resolver's `internalError` and "Token not
        found" reach the caller as `internalError`. */
    twostate predicate AddMessageOutcome(p: Params, ethers: Ethers, subgraph: Subgraph, new r: Result<Reply>)
      reads this, db
    {
      && secrets == old(secrets)
      && db.likes == old(db.likes) && db.users == old(db.users) && db.massages == old(db.massages)
      && var args := MessageText(secrets, p, ethers);
         && (args.Err? ==> r == Err(args.fault) && db.tokens == old(db.tokens) && db.messages == old(db.messages))
         && (args.Ok? ==>
               var t := args.value.0.tokenAddress;
               var doc := Msg(args.value.0.address, t, Some(args.value.1));
               if t in old(db.tokens) then
                 r == Ok(Done("Message add successfully")) && db.tokens == old(db.tokens) &&
                 db.messages == old(db.messages) + [doc]
               else if subgraph(t) == Some(t) then
                 r == Ok(Done("Message add successfully")) && db.tokens == old(db.tokens)[t := 0] &&
                 db.messages == old(db.messages) + [doc]
               else
                 r == Err(InternalError) && db.tokens == old(db.tokens) && db.messages == old(db.messages))
    }

    method AddMessage(p: Params, ethers: Ethers, subgraph: Subgraph) returns (r: Result<Reply>)
      modifies db`tokens, db`messages
      ensures AddMessageOutcome(p, ethers, subgraph, r)
      ensures old(db.CountersInSync()) ==> db.CountersInSync()
    {
      var args := MessageText(secrets, p, ethers);
      if args.Err? {
        return Err(args.fault);
      }
      var (target, text) := args.value;
      var known := db.FindToken(target.tokenAddress);
      if !known {
        var added := AddToken(target.tokenAddress, subgraph);
        if added.Err? || !added.value {
          // "Token not found" is thrown inside the try and rewrapped by its catch
          return Err(InternalError);
        }
      }
      db.InsertMessage(Msg(target.address, target.tokenAddress, Some(text)));
      r := Ok(Done("Message add successfully"));
    }

    /** The outcome of `addLike`: after the argument checks, a token that is
        neither stored nor confirmed by the subgraph is refused (outside the
        `try`, so the caller sees `internalError` for a subgraph failure and
        `invalidParams` for "Token not found"); then one `Toggle` step on the
        like rows and counters, with `like` read for its truthiness. */
    twostate predicate AddLikeOutcome(p: Params, ethers: Ethers, subgraph: Subgraph, new r: Result<Reply>)
      reads this, db
    {
      && secrets == old(secrets)
      && db.messages == old(db.messages) && db.users == old(db.users) && db.massages == old(db.massages)
      && var args := TokenTarget(secrets, p, ethers);
         && (args.Err? ==> r == Err(args.fault) && db.tokens == old(db.tokens) && db.likes == old(db.likes))
         && (args.Ok? ==>
               var a := args.value.address;
               var t := args.value.tokenAddress;
               if t !in old(db.tokens) && subgraph(t).None? then
                 r == Err(InternalError) && db.tokens == old(db.tokens) && db.likes == old(db.likes)
               else if t !in old(db.tokens) && subgraph(t) != Some(t) then
                 r == Err(InvalidParams("Token not found")) && db.tokens == old(db.tokens) && db.likes == old(db.likes)
               else
                 var resolved := if t in old(db.tokens) then old(db.tokens) else old(db.tokens)[t := 0];
                 r == Ok(Done("Like successfully")) &&
                 (db.likes, db.tokens) == Toggle(old(db.likes), resolved, a, t, p.like == Some(true)))
    }

    method AddLike(p: Params, ethers: Ethers, subgraph: Subgraph) returns (r: Result<Reply>)
      modifies db`tokens, db`likes
      ensures AddLikeOutcome(p, ethers, subgraph, r)
      ensures old(db.CountersInSync()) ==> db.CountersInSync()
    {
      var args := TokenTarget(secrets, p, ethers);
      if args.Err? {
        return Err(args.fault);
      }
      var a, t := args.value.address, args.value.tokenAddress;
      var known := db.FindToken(t);
      if !known {
        var added := AddToken(t, subgraph);
        if added.Err? {
          return Err(added.fault);
        }
        if !added.value {
          return Err(InvalidParams("Token not found"));
        }
      }
      ghost var likes0, tokens0 := db.likes, db.tokens;
      assert t in tokens0;
      // `if (!like) ... else if (like)`: the second test is always true
      if !(p.like == Some(true)) {
        var deletedCount := db.DeleteLike(a, t);
        if deletedCount == 1 {
          db.IncrementLike(t, -1);
        }
      } else {
        var upsertedCount := db.UpsertLike(a, t);
        if upsertedCount == 1 {
          db.IncrementLike(t, 1);
        }
      }
      assert (db.likes, db.tokens) == Toggle(likes0, tokens0, a, t, p.like == Some(true));
      if InSync(likes0, tokens0) {
        ToggleKeepsSync(likes0, tokens0, a, t, p.like == Some(true));
      }
      r := Ok(Done("Like successfully"));
    }

    /** The answer of `getToken`: the token address defaults to "0x" and is
        lower-cased; a non-address is refused, otherwise the stored counter
        (or null). */
    ghost predicate GetTokenAnswer(p: Params, ethers: Ethers, r: Result<Reply>)
      reads db
    {
      var t := Lower(OrDefault(p.tokenAddress, "0x"));
      && (!ValidAddress(ethers, t) ==> r == Err(InvalidParams("Invalid address")))
      && (ValidAddress(ethers, t) ==> r == Ok(TokenFound(Get(db.tokens, t))))
    }

    method GetToken(p: Params, ethers: Ethers) returns (r: Result<Reply>)
      ensures GetTokenAnswer(p, ethers, r)
    {
      var t := Lower(OrDefault(p.tokenAddress, "0x"));
      if !ValidAddress(ethers, t) {
        return Err(InvalidParams("Invalid address"));
      }
      r := Ok(TokenFound(Get(db.tokens, t)));
    }

    /** The answer of `getMessages`: `skip` and `limit` default to 0, the
        token address to "0x"; the answer holds every stored message of that
        token, each as many times as it is stored. */
    ghost predicate GetMessagesAnswer(p: Params, ethers: Ethers, r: Result<Reply>)
      reads db
    {
      var t := Lower(OrDefault(p.tokenAddress, "0x"));
      && (!ValidAddress(ethers, t) ==> r == Err(InvalidParams("Invalid address")))
      && (ValidAddress(ethers, t) ==>
            && r.Ok? && r.value.MessagePage?
            && r.value.skip == OrZero(p.skip) && r.value.limit == OrZero(p.limit)
            && (forall m :: m in r.value.matching <==> m in db.messages && m.tokenAddress == t)
            && (forall m :: multiset(r.value.matching)[m] ==
                              if m.tokenAddress == t then multiset(db.messages)[m] else 0))
    }

    method GetMessages(p: Params, ethers: Ethers) returns (r: Result<Reply>)
      ensures GetMessagesAnswer(p, ethers, r)
    {
      var t := Lower(OrDefault(p.tokenAddress, "0x"));
      var skip, limit := OrZero(p.skip), OrZero(p.limit);
      if !ValidAddress(ethers, t) {
        return Err(InvalidParams("Invalid address"));
      }
      r := Ok(MessagePage(MessagesFor(db.messages, t), skip, limit));
    }

    /** The answer of `getUserLikes`: lower-cases the address, defaults
        `skip` and `limit` to 0, applies the inverted signature guard, and
        answers the caller's like rows. */
    ghost predicate GetUserLikesAnswer(p: Params, ethers: Ethers, r: Result<Reply>)
      reads this, db
    {
      && (p.address.None? ==> r == Err(LibraryError))
      && (p.address.Some? ==>
            var a := Lower(p.address.value);
            var gate := SignatureGate(secrets, a, p.signature, ethers);
            && (gate.Err? ==> r == Err(gate.fault))
            && (gate.Ok? ==>
                  r.Ok? && r.value.LikePage? &&
                  r.value.skip == OrZero(p.skip) && r.value.limit == OrZero(p.limit) &&
                  forall row :: row in r.value.rows <==> row in db.likes && row.0 == a))
    }

    method GetUserLikes(p: Params, ethers: Ethers) returns (r: Result<Reply>)
      ensures GetUserLikesAnswer(p, ethers, r)
    {
      if p.address.None? {
        return Err(LibraryError);
      }
      var a := Lower(p.address.value);
      var skip, limit := OrZero(p.skip), OrZero(p.limit);
      var gate := SignatureGate(secrets, a, p.signature, ethers);
      if gate.Err? {
        return Err(gate.fault);
      }
      r := Ok(LikePage(RowsBy(db.likes, a), skip, limit));
    }

    /** The answer of `getUser`: the profile stored under the lower-cased
        address, or null. */
    ghost predicate GetUserAnswer(p: Params, r: Result<Reply>)
      reads db
    {
      && (p.address.None? ==> r == Err(LibraryError))
      && (p.address.Some? ==> r == Ok(UserFound(Get(db.users, Lower(p.address.value)))))
    }

    method GetUser(p: Params) returns (r: Result<Reply>)
      ensures GetUserAnswer(p, r)
    {
      if p.address.None? {
        return Err(LibraryError);
      }
      r := Ok(UserFound(Get(db.users, Lower(p.address.value))));
    }

    /** What the handler `m` does to the state and answers; the read-only
        handlers change nothing. */
    twostate predicate Handled(m: RpcMethod, p: Params, ethers: Ethers, subgraph: Subgraph, digest: string,
                               new r: Result<Reply>)
      reads this, db
    {
      match m
      case RpcGetSecret => GetSecretOutcome(p, ethers, digest, r)
      case RpcAddUser => AddUserOutcome(p, ethers, r)
      case RpcAddMessage => AddMessageOutcome(p, ethers, subgraph, r)
      case RpcAddLike => AddLikeOutcome(p, ethers, subgraph, r)
      case RpcGetToken => Untouched() && GetTokenAnswer(p, ethers, r)
      case RpcGetMessages => Untouched() && GetMessagesAnswer(p, ethers, r)
      case RpcGetUserLikes => Untouched() && GetUserLikesAnswer(p, ethers, r)
      case RpcGetUser => Untouched() && GetUserAnswer(p, r)
    }

    /** `handleRPCRequest`: a body that is not a request is refused with
        `invalidRequest` and a null id, an unknown method with
        `methodNotFound`, and otherwise the routed handler runs and its
        result, or `internalError` for any exception it throws, is answered;
        `invalidParams` never reaches the client. Every path keeps the
        counters in sync, and while `mapSecret` is as `getSecret` leaves it,
        every request to a handler behind the signature guard is answered
        `internalError` and changes nothing. */
    method HandleRpcRequest(req: Incoming, ethers: Ethers, subgraph: Subgraph, digest: string)
      returns (resp: Response)
      modifies this`secrets, db`tokens, db`likes, db`messages, db`users
      ensures req.NotARequest? ==>
                resp == Response(None, Failed(RpcError(InvalidRequestCode, ""))) && Untouched()
      ensures req.Request? && Route(req.methodName).None? ==>
                resp == Response(Some(req.id), Failed(RpcError(MethodNotFoundCode, "Not found"))) && Untouched()
      ensures req.Request? && Route(req.methodName).Some? ==>
                exists outcome :: resp == Respond(req.id, outcome) &&
                  if req.params.None? then outcome == Err(LibraryError) && Untouched()
                  else Handled(Route(req.methodName).value, req.params.value, ethers, subgraph, digest, outcome)
      ensures resp.payload.Failed? ==> resp.payload.error.code != InvalidParamsCode
      ensures old(db.CountersInSync()) ==> db.CountersInSync()
      ensures old(KeyedByLiteral(secrets)) ==> KeyedByLiteral(secrets)
      ensures && req.Request? && Route(req.methodName).Some? && SignedMethod(Route(req.methodName).value)
              && old(KeyedByLiteral(secrets)) && ThrowsOnUndefinedMessage(ethers) && !ethers.isAddress("address")
              ==> resp == Response(Some(req.id), Failed(RpcError(InternalErrorCode, "Internal error"))) && Untouched()
    {
      if req.NotARequest? {
        return Response(None, Failed(RpcError(InvalidRequestCode, "")));
      }
      var route := Route(req.methodName);
      if route.None? {
        return Response(Some(req.id), Failed(RpcError(MethodNotFoundCode, "Not found")));
      }
      var outcome: Result<Reply>;
      if req.params.None? {
        // destructuring an undefined `params` throws a TypeError
        outcome := Err(LibraryError);
      } else {
        var p := req.params.value;
        if KeyedByLiteral(secrets) && ThrowsOnUndefinedMessage(ethers) && !ethers.isAddress("address") && p.address.Some? {
          NoCallerPassesGate(secrets, Lower(p.address.value), p.signature, ethers);
        }
        match route.value
        case RpcGetSecret => outcome := GetSecret(p, ethers, digest);
        case RpcAddUser => outcome := AddUser(p, ethers);
        case RpcAddMessage => outcome := AddMessage(p, ethers, subgraph);
        case RpcAddLike => outcome := AddLike(p, ethers, subgraph);
        case RpcGetToken => outcome := GetToken(p, ethers);
        case RpcGetMessages => outcome := GetMessages(p, ethers);
        case RpcGetUserLikes => outcome := GetUserLikes(p, ethers);
        case RpcGetUser => outcome := GetUser(p);
      }
      resp := Respond(req.id, outcome);
    }
  }
}
