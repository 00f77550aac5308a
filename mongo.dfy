/** The MongoDB database both variants write to, as in-memory collections,
    and the driver calls they make. Each write reports what it did the way the
    driver does (`upsertedCount`, `deletedCount`), derived from membership. */
module Mongo {
  import opened Js
  import opened Counters

  /** A document of the `message` (or misspelt `massage`) collection. */
  datatype Msg = Msg(address: string, tokenAddress: string, message: Option<string>)

  /** A document of the `user` collection, keyed by its `address`. */
  datatype User = User(userName: Option<string>, image: Option<string>)

  class Db {
    /** `like`: one row per (address, tokenAddress). */
    var likes: set<Row>
    /** `token`: tokenAddress -> the `like` counter of its document. */
    var tokens: map<string, int>
    /** `message`, the collection the readers query. */
    var messages: seq<Msg>
    /** `massage`, the collection the REST variant inserts into. */
    var massages: seq<Msg>
    /** `user`: address -> profile. */
    var users: map<string, User>

    constructor ()
      ensures likes == {} && tokens == map[] && messages == [] && massages == [] && users == map[]
    {
      likes, tokens, messages, massages, users := {}, map[], [], [], map[];
    }

    /** The counters agree with the like rows. */
    predicate CountersInSync()
      reads this
    {
      InSync(likes, tokens)
    }

    /** `collection("token").findOne({tokenAddress: t}) != null`. */
    method FindToken(t: string) returns (found: bool)
      ensures found <==> t in tokens
    {
      found := t in tokens;
    }

    /** `collection("token").updateOne({tokenAddress: t}, {tokenAddress: t, like: 0, ...}, {upsert: true})`:
        the replacement document resets the counter whether or not the token was stored. */
    method UpsertToken(t: string)
      modifies this`tokens
      ensures tokens == old(tokens)[t := 0]
    {
      tokens := tokens[t := 0];
    }

    /** `collection("like").updateOne({address: a, tokenAddress: t}, ..., {upsert: true})`. */
    method UpsertLike(a: string, t: string) returns (upsertedCount: nat)
      modifies this`likes
      ensures likes == old(likes) + {(a, t)}
      ensures upsertedCount == if (a, t) in old(likes) then 0 else 1
    {
      upsertedCount := if (a, t) in likes then 0 else 1;
      likes := likes + {(a, t)};
    }

    /** `collection("like").deleteOne({address: a, tokenAddress: t})`. */
    method DeleteLike(a: string, t: string) returns (deletedCount: nat)
      modifies this`likes
      ensures likes == old(likes) - {(a, t)}
      ensures deletedCount == if (a, t) in old(likes) then 1 else 0
    {
      deletedCount := if (a, t) in likes then 1 else 0;
      likes := likes - {(a, t)};
    }

    /** `collection("token").deleteOne({address: a, tokenAddress: t})`: token
        documents are `{tokenAddress, like, timestamp}` and have no `address`
        field, so the filter matches no document and nothing is deleted. */
    method DeleteTokenByAddress(a: string, t: string) returns (deletedCount: nat)
      ensures deletedCount == 0
    {
      deletedCount := 0;
    }

    /** `collection("token").updateOne({tokenAddress: t}, {$inc: {like: delta}})`. */
    method IncrementLike(t: string, delta: int)
      modifies this`tokens
      ensures tokens == Bump(old(tokens), t, delta)
    {
      tokens := Bump(tokens, t, delta);
    }

    /** `collection("message").insertOne(m)`. */
    method InsertMessage(m: Msg)
      modifies this`messages
      ensures messages == old(messages) + [m]
    {
      messages := messages + [m];
    }

    /** `collection("massage").insertOne(m)`. */
    method InsertMassage(m: Msg)
      modifies this`massages
      ensures massages == old(massages) + [m]
    {
      massages := massages + [m];
    }

    /** `collection("user").updateOne({address: a}, {address: a, userName, image, ...}, {upsert: true})`:
        the whole document is replaced, so a field left undefined is not kept. */
    method UpsertUser(a: string, u: User)
      modifies this`users
      ensures users == old(users)[a := u]
    {
      users := users[a := u];
    }
  }
}
