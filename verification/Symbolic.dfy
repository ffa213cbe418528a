/** Cryptography as terms. A cell is one byte of storage: a literal byte, a byte
    of a derived key, or a byte of a sealed box. Derivations and boxes are free
    constructors, so distinct inputs give distinct outputs and a box opens only
    under the key, nonce, associated data and suite it was sealed with; random
    bytes are literals and are never mistaken for either. */
module Symbolic {
  import opened Common

  datatype Suite = Aes256Gcm | ChaCha20Poly1305 | Aes256GcmSiv

  datatype Argon2Params = Argon2Params(mCostKib: nat, tCost: nat, pCost: nat)

  datatype Cell =
    | Lit(b: byte)
    | OfKey(key: Derivation, i: nat)
    | OfBox(box: Box, i: nat)

  datatype Derivation =
    | Argon2id(input: seq<Cell>, salt: seq<Cell>, params: Argon2Params)
    | Hkdf(salt: seq<Cell>, ikm: seq<Cell>, info: seq<Cell>)

  datatype Box = Box(suite: Suite, key: seq<Cell>, nonce: seq<Cell>, aad: seq<Cell>, plain: seq<Cell>)

  const TAG_LEN: nat := 16
  const NONCE_LEN: nat := 12

  /** A 32-byte secret. */
  type Secret = s: seq<Cell> | |s| == KEY_LEN witness Repeat(Lit(0), KEY_LEN)

  /** The 32 bytes a derivation yields. */
  function KeyBytes(d: Derivation): (k: seq<Cell>)
    ensures |k| == KEY_LEN && forall i :: 0 <= i < KEY_LEN ==> k[i] == OfKey(d, i)
  {
    seq(KEY_LEN, i requires 0 <= i < KEY_LEN => OfKey(d, i))
  }

  function BoxBytes(x: Box): (c: seq<Cell>)
    ensures |c| == |x.plain| + TAG_LEN && forall i :: 0 <= i < |c| ==> c[i] == OfBox(x, i)
  {
    seq(|x.plain| + TAG_LEN, i requires 0 <= i < |x.plain| + TAG_LEN => OfBox(x, i))
  }

  /** `aead::seal`. */
  function Seal(suite: Suite, key: seq<Cell>, nonce: seq<Cell>, aad: seq<Cell>, plain: seq<Cell>): seq<Cell> {
    BoxBytes(Box(suite, key, nonce, aad, plain))
  }

  /** `aead::open`. */
  function Open(suite: Suite, key: seq<Cell>, nonce: seq<Cell>, aad: seq<Cell>, ct: seq<Cell>): Option<seq<Cell>> {
    if |ct| < TAG_LEN || !ct[0].OfBox? then None
    else
      var x := ct[0].box;
      if ct == BoxBytes(x) && x.suite == suite && x.key == key && x.nonce == nonce && x.aad == aad
      then Some(x.plain) else None
  }

  lemma KeyBytesInjective(d: Derivation, e: Derivation)
    ensures KeyBytes(d) == KeyBytes(e) <==> d == e
  {
    assert KeyBytes(d)[0] == OfKey(d, 0) && KeyBytes(e)[0] == OfKey(e, 0);
  }

  /** A sealed box opens to its plaintext under exactly the suite, key, nonce and
      associated data it was sealed with. */
  lemma OpensAsSealed(x: Box, suite: Suite, key: seq<Cell>, nonce: seq<Cell>, aad: seq<Cell>)
    ensures Open(suite, key, nonce, aad, BoxBytes(x))
         == if x.suite == suite && x.key == key && x.nonce == nonce && x.aad == aad then Some(x.plain) else None
  {
    assert BoxBytes(x)[0] == OfBox(x, 0);
  }

  /** Text in a one-byte encoding, as literal bytes. */
  function Ascii(s: string): (c: seq<Cell>)
    ensures |c| == |s| && forall i :: 0 <= i < |s| ==> c[i] == Lit(s[i] as int % 256)
  {
    seq(|s|, i requires 0 <= i < |s| => Lit(s[i] as int % 256))
  }

  lemma AsciiConcat(s: string, t: string)
    ensures Ascii(s + t) == Ascii(s) + Ascii(t)
  {}

  predicate AllLiteral(c: seq<Cell>) {
    forall i :: 0 <= i < |c| ==> c[i].Lit?
  }
}
