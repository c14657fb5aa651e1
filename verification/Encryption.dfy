/** One client-encrypted chunk: its blob layout, the associated data that binds it
    to its place, and an ideal AEAD in the shape of AEAD_AES_256_GCM
    (section 5.2 of RFC 5116). */
module Encryption {
  import opened Wrappers
  import opened ChunkBudget

  type byte = b: int | 0 <= b < 256
  type Bytes = seq<byte>

  /** (key, iv, ciphertext-and-tag, associated data) to plaintext, or None when the
      tag does not verify. */
  type Opener = (Bytes, Bytes, Bytes, string) -> Option<Bytes>

  /** (key, iv, plaintext, associated data) to ciphertext-and-tag. */
  type Sealer = (Bytes, Bytes, Bytes, string) -> Bytes

  /** What opens is exactly one tag longer than its plaintext. */
  ghost predicate TagLengthExact(open: Opener) {
    forall key, iv, body, aad :: open(key, iv, body, aad).Some? ==>
      |body| == |open(key, iv, body, aad).value| + GCM_TAG_BYTES
  }

  /** Python's `str` of a non-negative int. */
  function Decimal(n: nat): (s: string)
    ensures |s| > 0 && ':' !in s
  {
    if n < 10 then [Digit(n)] else Decimal(n / 10) + [Digit(n % 10)]
  }

  function Digit(d: nat): (c: char)
    requires d < 10
    ensures c != ':' && c as int == '0' as int + d
  {
    "0123456789"[d]
  }

  /** Reads a decimal numeral back. */
  function Numeral(s: string): int {
    if s == [] then 0
    else 10 * Numeral(s[..|s| - 1]) + (s[|s| - 1] as int - '0' as int)
  }

  lemma {:induction false} NumeralUndoesDecimal(n: nat)
    ensures Numeral(Decimal(n)) == n
  {
    if n < 10 {
      assert Decimal(n)[..0] == [];
    } else {
      NumeralUndoesDecimal(n / 10);
      var s := Decimal(n);
      assert s[..|s| - 1] == Decimal(n / 10);
    }
  }

  /** The associated data of chunk `part` of `parts`, as text. */
  function Aad(fileId: string, part: nat, parts: nat): string {
    fileId + ":" + Decimal(part) + ":" + Decimal(parts)
  }

  /** As the caller contract spells it out: id, then place, then total. */
  lemma AadAsDocumented()
    ensures Aad("abc123", 2, 5) == "abc123:2:5"
    ensures Aad("f", 12, 305) == "f:12:305"
  {
    assert Decimal(12) == "12" && Decimal(30) == "30" && Decimal(305) == "305";
  }

  /** A text has at most one split at its last colon. */
  lemma SplitAtLastColon(a: string, d: string, b: string, e: string)
    requires a + ":" + d == b + ":" + e
    requires ':' !in d && ':' !in e
    ensures a == b && d == e
  {
    var s := a + ":" + d;
    assert s[|a|] == ':' && s[|b|] == ':' by { assert (b + ":" + e)[|b|] == ':'; }
    assert |a| == |b|;
    assert a == s[..|a|] == (b + ":" + e)[..|b|] == b;
    assert d == s[|a| + 1..] == (b + ":" + e)[|b| + 1..] == e;
  }

  /** The associated data names one place in one file, whatever the file id holds:
      colons and digits in it included. */
  lemma AadInjective(f: string, i: nat, n: nat, g: string, j: nat, m: nat)
    ensures Aad(f, i, n) == Aad(g, j, m) <==> f == g && i == j && n == m
  {
    if Aad(f, i, n) == Aad(g, j, m) {
      SplitAtLastColon(f + ":" + Decimal(i), Decimal(n), g + ":" + Decimal(j), Decimal(m));
      SplitAtLastColon(f, Decimal(i), g, Decimal(j));
      NumeralUndoesDecimal(i);
      NumeralUndoesDecimal(j);
      NumeralUndoesDecimal(n);
      NumeralUndoesDecimal(m);
    }
  }

  /** Decrypts one `IV || ciphertext || tag` blob in its place; None is a
      DecryptionError. */
  function DecryptChunk(open: Opener, key: Bytes, blob: Bytes, fileId: string, part: nat, parts: nat): Option<Bytes> {
    if |blob| <= OVERHEAD_PER_CHUNK then None
    else open(key, blob[..IV_BYTES], blob[IV_BYTES..], Aad(fileId, part, parts))
  }
}
