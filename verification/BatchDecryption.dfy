/** What decrypting a whole source at once means: cut the wire bytes into blobs,
    open every blob in its place, and count. The streaming decryptor is proved
    against this definition. */
module BatchDecryption {
  import opened Wrappers
  import opened Sequences
  import opened ChunkBudget
  import opened Encryption

  /** Validated decryption parameters. */
  datatype Plan = Plan(key: Bytes, fileId: string, chunkSize: nat, parts: nat) {
    predicate Valid() { chunkSize >= 1 }

    function BlobSize(): nat { chunkSize + OVERHEAD_PER_CHUNK }
  }

  /** Full blobs, then one shorter tail when the length is not a multiple. */
  function Split(wire: Bytes, blobSize: nat): (pieces: seq<Bytes>)
    requires blobSize > 0
    decreases |wire|
  {
    if wire == [] then []
    else if |wire| < blobSize then [wire]
    else [wire[..blobSize]] + Split(wire[blobSize..], blobSize)
  }

  /** Every piece but the last is full; the last is neither empty nor oversized. */
  ghost predicate WellCut(pieces: seq<Bytes>, blobSize: nat) {
    forall i :: 0 <= i < |pieces| ==>
      if i == |pieces| - 1 then 1 <= |pieces[i]| <= blobSize else |pieces[i]| == blobSize
  }

  lemma {:induction false} SplitIsWellCut(wire: Bytes, blobSize: nat)
    requires blobSize > 0
    ensures Concat(Split(wire, blobSize)) == wire
    ensures WellCut(Split(wire, blobSize), blobSize)
    decreases |wire|
  {
    if wire == [] {
    } else if |wire| < blobSize {
      assert Concat([wire]) == wire + Concat([]);
    } else {
      SplitIsWellCut(wire[blobSize..], blobSize);
      var head, tail := wire[..blobSize], Split(wire[blobSize..], blobSize);
      assert Split(wire, blobSize) == [head] + tail;
      assert ([head] + tail)[1..] == tail;
      assert wire == head + wire[blobSize..];
      forall i | 0 <= i < |[head] + tail|
        ensures var p := ([head] + tail)[i]; if i == |tail| then 1 <= |p| <= blobSize else |p| == blobSize
      {
        if i > 0 { assert ([head] + tail)[i] == tail[i - 1]; }
      }
    }
  }

  /** Piece `i` is the bytes from `i * blobSize` on. */
  lemma {:induction false} SplitAt(wire: Bytes, blobSize: nat, i: nat)
    requires blobSize > 0 && i < |Split(wire, blobSize)|
    ensures 0 <= i * blobSize < |wire|
    ensures var rest := wire[i * blobSize..];
      Split(wire, blobSize)[i] == if |rest| < blobSize then rest else rest[..blobSize]
    decreases i
  {
    assert 0 * blobSize == 0 && wire[0..] == wire;
    if i > 0 {
      assert |wire| >= blobSize;
      assert Split(wire, blobSize)[i] == Split(wire[blobSize..], blobSize)[i - 1];
      SplitAt(wire[blobSize..], blobSize, i - 1);
      assert i * blobSize == (i - 1) * blobSize + blobSize;
      assert wire[blobSize..][(i - 1) * blobSize..] == wire[i * blobSize..];
    }
  }

  /** A well-cut list of pieces is the only way to cut its concatenation. */
  lemma {:induction false} SplitOfWellCut(pieces: seq<Bytes>, blobSize: nat)
    requires blobSize > 0 && WellCut(pieces, blobSize)
    ensures Split(Concat(pieces), blobSize) == pieces
  {
    if pieces == [] {
    } else {
      var head, tail := pieces[0], pieces[1..];
      var wire := Concat(pieces);
      assert wire == head + Concat(tail);
      if tail == [] {
        assert wire == head && pieces == [head];
        if |head| == blobSize {
          assert wire[..blobSize] == head && wire[blobSize..] == [];
        }
      } else {
        assert |head| == blobSize;
        forall i | 0 <= i < |tail|
          ensures if i == |tail| - 1 then 1 <= |tail[i]| <= blobSize else |tail[i]| == blobSize
        {
          assert tail[i] == pieces[i + 1];
        }
        SplitOfWellCut(tail, blobSize);
        assert wire[..blobSize] == head && wire[blobSize..] == Concat(tail);
      }
    }
  }

  function OpenPiece(open: Opener, plan: Plan, piece: Bytes, part: nat): Option<Bytes> {
    DecryptChunk(open, plan.key, piece, plan.fileId, part, plan.parts)
  }

  /** The plaintext of all pieces, numbered from `from + 1`; None if any fails. */
  function OpenAll(open: Opener, plan: Plan, pieces: seq<Bytes>, from: nat): Option<Bytes> {
    if pieces == [] then Some([])
    else
      match (OpenPiece(open, plan, pieces[0], from + 1), OpenAll(open, plan, pieces[1..], from + 1))
      case (Some(head), Some(tail)) => Some(head + tail)
      case _ => None
  }

  /** The declarative reading: each piece opens, in its own place, to its own slice. */
  ghost predicate OpenTo(open: Opener, plan: Plan, pieces: seq<Bytes>, from: nat, plains: seq<Bytes>) {
    |plains| == |pieces| &&
    forall i :: 0 <= i < |pieces| ==> OpenPiece(open, plan, pieces[i], from + i + 1) == Some(plains[i])
  }

  lemma {:induction false} OpenAllOfOpenTo(open: Opener, plan: Plan, pieces: seq<Bytes>, from: nat, plains: seq<Bytes>)
    requires OpenTo(open, plan, pieces, from, plains)
    ensures OpenAll(open, plan, pieces, from) == Some(Concat(plains))
  {
    if pieces == [] {
    } else {
      assert OpenPiece(open, plan, pieces[0], from + 0 + 1) == Some(plains[0]);
      forall i | 0 <= i < |pieces[1..]|
        ensures OpenPiece(open, plan, pieces[1..][i], from + 1 + i + 1) == Some(plains[1..][i])
      {
        assert OpenPiece(open, plan, pieces[i + 1], from + (i + 1) + 1) == Some(plains[i + 1]);
      }
      OpenAllOfOpenTo(open, plan, pieces[1..], from + 1, plains[1..]);
    }
  }

  /** Success means every piece opened where it stands. */
  lemma {:induction false} OpenToOfOpenAll(open: Opener, plan: Plan, pieces: seq<Bytes>, from: nat)
      returns (plains: seq<Bytes>)
    requires OpenAll(open, plan, pieces, from).Some?
    ensures OpenTo(open, plan, pieces, from, plains)
    ensures OpenAll(open, plan, pieces, from).value == Concat(plains)
  {
    if pieces == [] {
      plains := [];
    } else {
      var head := OpenPiece(open, plan, pieces[0], from + 1).value;
      var tail := OpenToOfOpenAll(open, plan, pieces[1..], from + 1);
      plains := [head] + tail;
      forall i | 0 <= i < |pieces|
        ensures OpenPiece(open, plan, pieces[i], from + i + 1) == Some(plains[i])
      {
        if i > 0 {
          assert pieces[i] == pieces[1..][i - 1] && plains[i] == tail[i - 1];
          assert OpenPiece(open, plan, pieces[1..][i - 1], from + 1 + (i - 1) + 1) == Some(tail[i - 1]);
        }
      }
      assert plains[1..] == tail;
    }
  }

  lemma {:induction false} OpenAllAppend(open: Opener, plan: Plan, a: seq<Bytes>, b: seq<Bytes>, from: nat)
    ensures OpenAll(open, plan, a + b, from) ==
      match (OpenAll(open, plan, a, from), OpenAll(open, plan, b, from + |a|))
      case (Some(p), Some(q)) => Some(p + q)
      case _ => None
  {
    if a == [] {
      assert a + b == b;
      if OpenAll(open, plan, b, from).Some? {
        assert [] + OpenAll(open, plan, b, from).value == OpenAll(open, plan, b, from).value;
      }
    } else {
      OpenAllAppend(open, plan, a[1..], b, from + 1);
      assert (a + b)[1..] == a[1..] + b;
      var first, rest := OpenPiece(open, plan, a[0], from + 1), OpenAll(open, plan, a[1..], from + 1);
      match (first, rest, OpenAll(open, plan, b, from + |a|))
      case (Some(h), Some(p), Some(q)) => assert (h + p) + q == h + (p + q);
      case _ =>
    }
  }

  /** The whole specification of an encrypted download, time budget aside. */
  function BatchDecrypt(open: Opener, cap: nat, plan: Plan, wire: Bytes): Option<Bytes>
    requires plan.Valid()
  {
    var pieces := Split(wire, plan.BlobSize());
    var plain := OpenAll(open, plan, pieces, 0);
    if |wire| <= EncryptedWireCap(cap, plan.chunkSize) && |pieces| == plan.parts && plain.Some? && |plain.value| <= cap
    then plain
    else None
  }

  // ----- Conservation

  /** Every opened blob gives up exactly its overhead: bytes in are plaintext bytes
      out plus 28 per piece. */
  lemma {:induction false} Conservation(open: Opener, plan: Plan, pieces: seq<Bytes>, from: nat)
    requires TagLengthExact(open)
    requires OpenAll(open, plan, pieces, from).Some?
    ensures |Concat(pieces)| == |OpenAll(open, plan, pieces, from).value| + OVERHEAD_PER_CHUNK * |pieces|
  {
    if pieces == [] {
    } else {
      Conservation(open, plan, pieces[1..], from + 1);
      OpenedLength(open, plan, pieces[0], from + 1);
    }
  }

  lemma OpenedLength(open: Opener, plan: Plan, piece: Bytes, part: nat)
    requires TagLengthExact(open)
    requires OpenPiece(open, plan, piece, part).Some?
    ensures |piece| == |OpenPiece(open, plan, piece, part).value| + OVERHEAD_PER_CHUNK
    ensures |OpenPiece(open, plan, piece, part).value| >= 1
  {
    var aad := Aad(plan.fileId, part, plan.parts);
    assert open(plan.key, piece[..IV_BYTES], piece[IV_BYTES..], aad).Some?;
  }

  /** Number of pieces of a wire, by its length. */
  lemma {:induction false} PieceCount(pieces: seq<Bytes>, blobSize: nat)
    requires WellCut(pieces, blobSize) && blobSize > 0
    ensures (|pieces| - 1) * blobSize < |Concat(pieces)| <= |pieces| * blobSize || pieces == []
  {
    if pieces == [] {
    } else if |pieces| == 1 {
      assert Concat(pieces) == pieces[0] + Concat(pieces[1..]) == pieces[0];
      assert |pieces[0]| <= blobSize;
    } else {
      forall i | 0 <= i < |pieces[1..]|
        ensures var p := pieces[1..][i]; if i == |pieces[1..]| - 1 then 1 <= |p| <= blobSize else |p| == blobSize
      {
        assert pieces[1..][i] == pieces[i + 1];
      }
      PieceCount(pieces[1..], blobSize);
      assert |pieces[0]| == blobSize;
      OneMore(|pieces|, blobSize);
      OneMore(|pieces| - 1, blobSize);
    }
  }

  /** The wire size of what a well-cut list of pieces opens to is its own length. */
  lemma OpenedWireSize(open: Opener, plan: Plan, pieces: seq<Bytes>)
    requires plan.Valid() && TagLengthExact(open)
    requires WellCut(pieces, plan.BlobSize())
    requires OpenAll(open, plan, pieces, 0).Some?
    ensures WireSize(|OpenAll(open, plan, pieces, 0).value|, plan.chunkSize) == |Concat(pieces)|
  {
    var n, c, b := |pieces|, plan.chunkSize, plan.BlobSize();
    var plain := OpenAll(open, plan, pieces, 0).value;
    Conservation(open, plan, pieces, 0);
    if n == 0 {
      CeilDivUnique(0, c, 0);
    } else {
      PieceCount(pieces, b);
      LastOpens(open, plan, pieces);
      ChunkCountFromWire(|plain|, n, c);
    }
  }

  /** An opened last piece holds at least one plaintext byte. */
  lemma LastOpens(open: Opener, plan: Plan, pieces: seq<Bytes>)
    requires plan.Valid() && TagLengthExact(open) && pieces != []
    requires WellCut(pieces, plan.BlobSize())
    requires OpenAll(open, plan, pieces, 0).Some?
    ensures |Concat(pieces)| > (|pieces| - 1) * plan.BlobSize() + OVERHEAD_PER_CHUNK
  {
    var plains := OpenToOfOpenAll(open, plan, pieces, 0);
    var last := |pieces| - 1;
    OpenedLength(open, plan, pieces[last], 0 + last + 1);
    assert pieces == pieces[..last] + [pieces[last]];
    ConcatAppend(pieces[..last], [pieces[last]]);
    assert Concat([pieces[last]]) == pieces[last] + Concat([]);
    FullPiecesLength(pieces[..last], plan.BlobSize());
  }

  lemma {:induction false} FullPiecesLength(pieces: seq<Bytes>, blobSize: nat)
    requires forall p :: p in pieces ==> |p| == blobSize
    ensures |Concat(pieces)| == |pieces| * blobSize
  {
    if pieces == [] {
    } else {
      FullPiecesLength(pieces[1..], blobSize);
      OneMore(|pieces|, blobSize);
    }
  }

  /** The plaintext cap is implied by the wire cap: for an opener with exact tags,
      the "plaintext over" check can never be what rejects a source. */
  lemma PlaintextCapImplied(open: Opener, cap: nat, plan: Plan, pieces: seq<Bytes>)
    requires plan.Valid() && TagLengthExact(open)
    requires WellCut(pieces, plan.BlobSize())
    requires |Concat(pieces)| <= EncryptedWireCap(cap, plan.chunkSize)
    requires OpenAll(open, plan, pieces, 0).Some?
    ensures |OpenAll(open, plan, pieces, 0).value| <= cap
  {
    OpenedWireSize(open, plan, pieces);
    FitsWireIffFitsCap(|OpenAll(open, plan, pieces, 0).value|, plan.chunkSize, cap);
  }
}
