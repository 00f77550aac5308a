/** The JavaScript runtime facts both server variants rely on: `undefined`,
    truthiness of strings, `String.prototype.toLowerCase`, and the foreign
    capabilities (ethers and the subgraph index) passed in as oracles. */
module Js {

  /** A value that may be `undefined`. */
  datatype Option<+T> = None | Some(value: T)

  /** JavaScript truthiness of a string that may be undefined: `undefined` and
      the empty string are falsy, every other string is truthy. */
  predicate Truthy(v: Option<string>) {
    v.Some? && v.value != ""
  }

  /** `v || d` for a string that may be undefined. */
  function OrDefault(v: Option<string>, d: string): string {
    if Truthy(v) then v.value else d
  }

  /** `v || 0` for a number that may be undefined (0 itself is falsy and gives 0). */
  function OrZero(v: Option<int>): int {
    if v.Some? then v.value else 0
  }

  /** `Map.prototype.get`: `undefined` for a missing key. */
  function Get<K, V>(m: map<K, V>, k: K): Option<V> {
    if k in m then Some(m[k]) else None
  }

  function LowerChar(c: char): char {
    if 'A' <= c <= 'Z' then (c as int + 32) as char else c
  }

  /** `toLowerCase` on the ASCII range (wallet addresses are ASCII). */
  function Lower(s: string): string {
    seq(|s|, i requires 0 <= i < |s| => LowerChar(s[i]))
  }

  /** The two ethers capabilities the handlers call.
      `isAddress` answers whether a string is an account address;
      `verifyMessage(message, signature)` recovers the signer's address, and
      is None where the library throws (an undefined message, a malformed
      signature). */
  datatype Ethers = Ethers(
    isAddress: string -> bool,
    verifyMessage: (Option<string>, string) -> Option<string>)

  /** The subgraph POST: the `token.id` of the response, or None when the
      request fails or the response has no token (reading `.id` of a null
      token throws as well). */
  type Subgraph = string -> Option<string>

  /** ethers hashes the message before recovering the signer and reads its
      length, so verifying against an undefined message always throws. */
  ghost predicate ThrowsOnUndefinedMessage(ethers: Ethers) {
    forall s :: ethers.verifyMessage(None, s).None?
  }

  /** `!a || !ethers.isAddress(a)` is the rejection test both variants use. */
  predicate ValidAddress(ethers: Ethers, a: string) {
    a != "" && ethers.isAddress(a)
  }
}
