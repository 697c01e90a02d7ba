/** The cryptographic primitives the sessions call. Their internals are parameters. */
module Crypto {
  import opened Octets

  type Key = Octets

  datatype Algorithm = NullCipher | Icm | Gcm

  /** `keystream` is indexed by key, initialization vector and position; `tag` by key, message
      and position; `aeadTag` by key, vector, associated data, ciphertext and position. */
  datatype Primitives = Primitives(
    keystream: (Key, Octets, nat) -> Octet,
    tag: (Key, Octets, nat) -> Octet,
    aeadTag: (Key, Octets, Octets, Octets, nat) -> Octet)

  /** The null cipher leaves its buffer as it is. */
  function Keystream(prim: Primitives, algorithm: Algorithm, key: Key, iv: Octets): nat -> Octet {
    if algorithm.NullCipher? then (p: nat) => 0 else (p: nat) => prim.keystream(key, iv, p)
  }

  function Tag(prim: Primitives, key: Key, message: Octets, size: nat): (r: Octets)
    ensures |r| == size
  {
    seq<Octet>(size, i requires 0 <= i < size => prim.tag(key, message, i))
  }

  function AeadTag(prim: Primitives, key: Key, iv: Octets, aad: Octets, text: Octets, size: nat): (r: Octets)
    ensures |r| == size
  {
    seq<Octet>(size, i requires 0 <= i < size => prim.aeadTag(key, iv, aad, text, i))
  }

  /** A keyed cipher; the vector and the position are scratch state. */
  class Cipher {
    const algorithm: Algorithm
    const key: Key
    var iv: Octets
    var pos: nat

    constructor (algorithm: Algorithm, key: Key)
      ensures this.algorithm == algorithm && this.key == key
    {
      this.algorithm, this.key := algorithm, key;
      iv, pos := [], 0;
    }

    ghost function Stream(prim: Primitives): nat -> Octet
      reads this
    {
      Keystream(prim, algorithm, key, iv)
    }

    method SetIv(iv: Octets)
      modifies this
      ensures this.iv == iv && pos == 0
    {
      this.iv, pos := iv, 0;
    }

    /** Combines the next `n` keystream octets into the buffer, in place. */
    method Encrypt(prim: Primitives, buffer: array<Octet>, from: nat, n: nat)
      requires from + n <= buffer.Length
      modifies this, buffer
      ensures iv == old(iv) && pos == old(pos) + n && Stream(prim) == old(Stream(prim))
      ensures buffer[..from] == old(buffer[..from])
      ensures buffer[from..from + n] == XorWith(old(buffer[from..from + n]), old(Stream(prim)), old(pos))
      ensures buffer[from + n..] == old(buffer[from + n..])
    {
      ghost var stream := Stream(prim);
      for i := 0 to n
        invariant iv == old(iv) && pos == old(pos) + i
        invariant forall k :: 0 <= k < from || from + i <= k < buffer.Length ==> buffer[k] == old(buffer[k])
        invariant forall k :: from <= k < from + i ==> buffer[k] == Xor(old(buffer[k]), stream(old(pos) + (k - from)))
      {
        var octet := Keystream(prim, algorithm, key, iv)(pos);
        buffer[from + i] := Xor(buffer[from + i], octet);
        pos := pos + 1;
      }
    }

    /** The tag of an authenticated cipher over the associated data and the ciphertext. */
    method GetTag(prim: Primitives, aad: Octets, text: Octets, size: nat) returns (tag: Octets)
      ensures tag == AeadTag(prim, key, iv, aad, text, size)
    {
      tag := AeadTag(prim, key, iv, aad, text, size);
    }

    /** Writes the next `n` keystream octets to the front of the buffer. */
    method Output(prim: Primitives, buffer: array<Octet>, n: nat)
      requires n <= buffer.Length
      modifies this, buffer
      ensures iv == old(iv) && pos == old(pos) + n && Stream(prim) == old(Stream(prim))
      ensures forall k :: 0 <= k < n ==> buffer[k] == old(Stream(prim))(old(pos) + k)
    {
      for i := 0 to n
        invariant iv == old(iv) && pos == old(pos) + i
        invariant forall k :: 0 <= k < i ==> buffer[k] == old(Stream(prim))(old(pos) + k)
      {
        buffer[i] := Keystream(prim, algorithm, key, iv)(pos);
        pos := pos + 1;
      }
    }
  }

  /** A keyed message authentication function; the absorbed message is scratch state. */
  class Auth {
    const key: Key
    const tagLen: nat
    var absorbed: Octets

    constructor (key: Key, tagLen: nat)
      ensures this.key == key && this.tagLen == tagLen
    {
      this.key, this.tagLen := key, tagLen;
      absorbed := [];
    }

    method Start()
      modifies this
      ensures absorbed == []
    {
      absorbed := [];
    }

    method Update(message: Octets)
      modifies this
      ensures absorbed == old(absorbed) + message
    {
      absorbed := absorbed + message;
    }

    /** Absorbs a last piece and returns the tag over everything absorbed. */
    method Compute(prim: Primitives, message: Octets) returns (tag: Octets)
      modifies this
      ensures tag == Tag(prim, key, old(absorbed) + message, tagLen)
    {
      absorbed := absorbed + message;
      tag := Tag(prim, key, absorbed, tagLen);
    }
  }
}
