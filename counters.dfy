/** The denormalised like counter: the `like` collection holds one row per
    (address, tokenAddress) pair, and every token document carries a `like`
    field meant to equal the number of rows for that token. This module is the
    value-level specification of one like/unlike step and what it preserves. */
module Counters {

  /** A like row: (address, tokenAddress). */
  type Row = (string, string)

  /** The rows that like token `t`. */
  function RowsFor(likes: set<Row>, t: string): set<Row> {
    set r | r in likes && r.1 == t
  }

  /** The rows written by address `a`. */
  function RowsBy(likes: set<Row>, a: string): set<Row> {
    set r | r in likes && r.0 == a
  }

  function LikeCount(likes: set<Row>, t: string): nat {
    |RowsFor(likes, t)|
  }

  /** The invariant the counter is there to keep: every row names a stored
      token, and every token's counter is the number of its rows. */
  predicate InSync(likes: set<Row>, tokens: map<string, int>) {
    && (forall r | r in likes :: r.1 in tokens)
    && (forall t | t in tokens :: tokens[t] == LikeCount(likes, t))
  }

  /** `updateOne({tokenAddress: t}, {$inc: {like: delta}})` without upsert:
      a token that is not stored stays absent. */
  function Bump(tokens: map<string, int>, t: string, delta: int): (r: map<string, int>)
    ensures r.Keys == tokens.Keys
    ensures forall u | u in tokens :: r[u] == if u == t then tokens[u] + delta else tokens[u]
  {
    if t in tokens then tokens[t := tokens[t] + delta] else tokens
  }

  /** The change of the counter that one step should make: +1 for a new row,
      -1 for a removed row, 0 when the row was already in the desired state. */
  function Delta(likes: set<Row>, a: string, t: string, like: bool): int {
    if like && (a, t) !in likes then 1
    else if !like && (a, t) in likes then -1
    else 0
  }

  /** One like (`like` true) or unlike step on the like rows and token
      counters, written the way the handlers write it: the counter is moved
      only when the row write reports an inserted (`upsertedCount == 1`) or a
      removed (`deletedCount == 1`) row. */
  function Toggle(likes: set<Row>, tokens: map<string, int>, a: string, t: string, like: bool)
    : (r: (set<Row>, map<string, int>))
    ensures r.0 == if like then likes + {(a, t)} else likes - {(a, t)}
    ensures r.1 == Bump(tokens, t, Delta(likes, a, t, like))
  {
    if like then
      var upsertedCount := if (a, t) in likes then 0 else 1;
      (likes + {(a, t)}, if upsertedCount == 1 then Bump(tokens, t, 1) else tokens)
    else
      var deletedCount := if (a, t) in likes then 1 else 0;
      (likes - {(a, t)}, if deletedCount == 1 then Bump(tokens, t, -1) else tokens)
  }

  lemma InsertedRowCount(likes: set<Row>, a: string, t: string, u: string)
    requires (a, t) !in likes
    ensures LikeCount(likes + {(a, t)}, u) == LikeCount(likes, u) + (if u == t then 1 else 0)
  {
    if u == t {
      assert RowsFor(likes + {(a, t)}, u) == RowsFor(likes, u) + {(a, t)};
    } else {
      assert RowsFor(likes + {(a, t)}, u) == RowsFor(likes, u);
    }
  }

  lemma RemovedRowCount(likes: set<Row>, a: string, t: string, u: string)
    requires (a, t) in likes
    ensures LikeCount(likes - {(a, t)}, u) == LikeCount(likes, u) - (if u == t then 1 else 0)
  {
    if u == t {
      assert RowsFor(likes, u) == RowsFor(likes - {(a, t)}, u) + {(a, t)};
    } else {
      assert RowsFor(likes - {(a, t)}, u) == RowsFor(likes, u);
    }
  }

  /** A step on a stored token keeps every counter equal to its row count. */
  lemma ToggleKeepsSync(likes: set<Row>, tokens: map<string, int>, a: string, t: string, like: bool)
    requires InSync(likes, tokens)
    requires t in tokens
    ensures InSync(Toggle(likes, tokens, a, t, like).0, Toggle(likes, tokens, a, t, like).1)
  {
    var after := Toggle(likes, tokens, a, t, like);
    forall u | u in after.1
      ensures after.1[u] == LikeCount(after.0, u)
    {
      if like && (a, t) !in likes {
        InsertedRowCount(likes, a, t, u);
      } else if !like && (a, t) in likes {
        RemovedRowCount(likes, a, t, u);
      } else {
        assert after.0 == likes;
      }
    }
  }

  /** Repeating a request changes nothing: the second step finds the row
      already in the desired state. */
  lemma ToggleIdempotent(likes: set<Row>, tokens: map<string, int>, a: string, t: string, like: bool)
    ensures var once := Toggle(likes, tokens, a, t, like);
            Toggle(once.0, once.1, a, t, like) == once
  {
    var once := Toggle(likes, tokens, a, t, like);
    assert Delta(once.0, a, t, like) == 0;
    var again := Toggle(once.0, once.1, a, t, like);
    assert again.0 == once.0;
    assert again.1 == once.1 by {
      if t in once.1 { assert once.1[t := once.1[t] + 0] == once.1; }
    }
  }

  /** Like then unlike, starting without the row, restores both the rows and
      the counters. */
  lemma LikeThenUnlike(likes: set<Row>, tokens: map<string, int>, a: string, t: string)
    requires (a, t) !in likes
    ensures var liked := Toggle(likes, tokens, a, t, true);
            Toggle(liked.0, liked.1, a, t, false) == (likes, tokens)
  {
    var liked := Toggle(likes, tokens, a, t, true);
    assert liked.0 - {(a, t)} == likes;
    assert Bump(liked.1, t, -1) == tokens;
  }

  /** Storing a fresh token record `{like: 0}` for a token with no counter
      keeps the invariant: in sync, no row can name that token yet. */
  lemma FreshTokenKeepsSync(likes: set<Row>, tokens: map<string, int>, t: string)
    requires InSync(likes, tokens)
    requires t !in tokens
    ensures InSync(likes, tokens[t := 0])
  {
  }

  /** A like recorded for a token that has no token record leaves a row the
      counters do not account for. */
  lemma LikeOfUnknownTokenBreaksSync(likes: set<Row>, tokens: map<string, int>, a: string, t: string)
    requires t !in tokens
    ensures !InSync(Toggle(likes, tokens, a, t, true).0, Toggle(likes, tokens, a, t, true).1)
  {
  }
}
