/** The byte budget of a client-encrypted download: how many bytes the chunked
    wire format adds to a plaintext, and the cap on the wire that follows. */
module ChunkBudget {
  const IV_BYTES: nat := 12
  const GCM_TAG_BYTES: nat := 16
  const OVERHEAD_PER_CHUNK: nat := IV_BYTES + GCM_TAG_BYTES

  /** Python's `-(-n // d)`; for a positive divisor `//` floors, as `/` does here. */
  function CeilDiv(n: nat, d: nat): (q: nat)
    requires d > 0
    ensures (q - 1) * d < n <= q * d
  {
    var negated := -(n as int);
    var floored := negated / d;
    assert floored * d <= negated < (floored + 1) * d by {
      assert negated == floored * d + negated % d;
    }
    assert floored <= 0 by {
      if floored > 0 { MulMonotone(1, floored, d); }
    }
    assert (-floored) * d == -(floored * d);
    assert (-floored - 1) * d == -((floored + 1) * d);
    -floored
  }

  lemma MulMonotone(a: int, b: int, d: nat)
    requires a <= b
    ensures a * d <= b * d
  {
    assert b * d == a * d + (b - a) * d;
  }

  /** The quotient is pinned by its two bounds. */
  lemma CeilDivUnique(n: nat, d: nat, q: int)
    requires d > 0 && (q - 1) * d < n <= q * d
    ensures CeilDiv(n, d) == q
  {
    var r := CeilDiv(n, d);
    if r < q {
      MulMonotone(r, q - 1, d);
    } else if q < r {
      MulMonotone(q, r - 1, d);
    }
  }

  lemma CeilDivMonotone(m: nat, n: nat, d: nat)
    requires d > 0 && m <= n
    ensures CeilDiv(m, d) <= CeilDiv(n, d)
  {
    var q, r := CeilDiv(m, d), CeilDiv(n, d);
    if r < q {
      MulMonotone(r, q - 1, d);
    }
  }

  /** Bytes on the wire for `plain` bytes of plaintext: one IV and one tag per
      `chunkSize` of it. */
  function WireSize(plain: nat, chunkSize: nat): nat
    requires chunkSize > 0
  {
    plain + OVERHEAD_PER_CHUNK * CeilDiv(plain, chunkSize)
  }

  /** The cap of a well-formed encrypted source. */
  function EncryptedWireCap(cap: nat, chunkSize: nat): nat
    requires chunkSize > 0
  {
    var chunks := CeilDiv(cap, chunkSize);
    cap + (if chunks > 1 then chunks else 1) * OVERHEAD_PER_CHUNK
  }

  lemma WireSizeStrictlyIncreasing(p: nat, q: nat, chunkSize: nat)
    requires chunkSize > 0 && p < q
    ensures WireSize(p, chunkSize) < WireSize(q, chunkSize)
  {
    CeilDivMonotone(p, q, chunkSize);
  }

  /** A plaintext's wire form fits under the wire cap exactly when the plaintext
      itself fits under the file cap; a cap of zero bytes included. */
  lemma FitsWireIffFitsCap(plain: nat, chunkSize: nat, cap: nat)
    requires chunkSize > 0
    ensures WireSize(plain, chunkSize) <= EncryptedWireCap(cap, chunkSize) <==> plain <= cap
  {
    if cap == 0 {
      CeilDivUnique(0, chunkSize, 0);
      if plain > 0 {
        CeilDivMonotone(1, plain, chunkSize);
        CeilDivUnique(1, chunkSize, 1);
      }
    } else {
      CapIsWireSizeOfCap(cap, chunkSize);
      if plain < cap {
        WireSizeStrictlyIncreasing(plain, cap, chunkSize);
      } else if cap < plain {
        WireSizeStrictlyIncreasing(cap, plain, chunkSize);
      }
    }
  }

  lemma CapIsWireSizeOfCap(cap: nat, chunkSize: nat)
    requires chunkSize > 0 && cap >= 1
    ensures EncryptedWireCap(cap, chunkSize) == WireSize(cap, chunkSize)
  {
    CeilDivUnique(1, chunkSize, 1);
    CeilDivMonotone(1, cap, chunkSize);
  }

  /** It is the least cap that admits every plaintext up to `cap` bytes. */
  lemma WireCapIsLeast(cap: nat, chunkSize: nat, bound: nat)
    requires chunkSize > 0 && cap >= 1
    ensures (forall plain: nat :: plain <= cap ==> WireSize(plain, chunkSize) <= bound)
       <==> EncryptedWireCap(cap, chunkSize) <= bound
  {
    CapIsWireSizeOfCap(cap, chunkSize);
    forall plain: nat | plain <= cap
      ensures WireSize(plain, chunkSize) <= WireSize(cap, chunkSize)
    {
      FitsWireIffFitsCap(plain, chunkSize, cap);
    }
  }

  /** In bytes: 28 for each chunk that a file of `cap` bytes takes, and for one at least. */
  lemma CapInBytes(cap: nat, chunkSize: nat, chunks: nat)
    requires chunkSize > 0 && (chunks - 1) * chunkSize < cap <= chunks * chunkSize
    ensures EncryptedWireCap(cap, chunkSize) == cap + 28 * (if chunks == 0 then 1 else chunks)
  {
    CeilDivUnique(cap, chunkSize, chunks);
  }

  lemma OneMore(n: int, d: nat)
    ensures n * d == (n - 1) * d + d
  {
  }

  /** A wire of `count` blobs, the last one holding at least one plaintext byte,
      carries exactly `count` chunks' worth of plaintext. */
  lemma ChunkCountFromWire(plain: nat, count: nat, chunkSize: nat)
    requires chunkSize > 0
    requires (count - 1) * (chunkSize + OVERHEAD_PER_CHUNK) + OVERHEAD_PER_CHUNK
           < plain + OVERHEAD_PER_CHUNK * count <= count * (chunkSize + OVERHEAD_PER_CHUNK)
    ensures WireSize(plain, chunkSize) == plain + OVERHEAD_PER_CHUNK * count
  {
    Distribute(count - 1, chunkSize, OVERHEAD_PER_CHUNK);
    Distribute(count, chunkSize, OVERHEAD_PER_CHUNK);
    CeilDivUnique(plain, chunkSize, count);
  }

  lemma Distribute(n: int, a: nat, b: nat)
    ensures n * (a + b) == n * a + n * b
  {
  }
}
