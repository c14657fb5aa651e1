/** The EXINSTREAM framing: a file as length-prefixed chunks, closed by an empty one. */
module Exinstream {
  import opened Wrappers
  import opened Sequences
  import opened Encryption

  const STREAM_CHUNK: nat := 1024

  /** `struct.pack("!L", n)`: four bytes, big-endian. */
  function PackLength(n: nat): (b: Bytes)
    requires n < 0x1_0000_0000
    ensures |b| == 4
  {
    [n / 0x100_0000, n / 0x1_0000 % 256, n / 256 % 256, n % 256]
  }

  function UnpackLength(b: Bytes): nat
    requires |b| >= 4
  {
    b[0] as int * 0x100_0000 + b[1] as int * 0x1_0000 + b[2] as int * 256 + b[3] as int
  }

  lemma UnpackUndoesPack(n: nat, tail: Bytes)
    requires n < 0x1_0000_0000
    ensures UnpackLength(PackLength(n) + tail) == n
  {
    var a, b, c := n / 256, n / 0x1_0000, n / 0x100_0000;
    assert a == n / 256 && b == a / 256 && c == b / 256;
    assert n == a * 256 + n % 256 && a == b * 256 + a % 256 && b == c * 256 + b % 256;
  }

  /** The most significant byte comes first. */
  lemma LengthIsBigEndian(n: nat)
    requires n < 0x1_0000_0000
    ensures var b := PackLength(n);
      n == 0x100_0000 * b[0] as int + 0x1_0000 * b[1] as int + 0x100 * b[2] as int + b[3] as int
    ensures n < 0x100 ==> PackLength(n) == [0, 0, 0, n]
  {
    UnpackUndoesPack(n, []);
  }

  function Frame(chunk: Bytes): Bytes
    requires |chunk| < 0x1_0000_0000
  {
    PackLength(|chunk|) + chunk
  }

  /** What the daemon reads: frames up to the empty one. None until that one is in. */
  function Decode(stream: Bytes): Option<(Bytes, Bytes)>
    decreases |stream|
  {
    if |stream| < 4 then None
    else
      var n := UnpackLength(stream);
      if n == 0 then Some(([], stream[4..]))
      else if |stream| < 4 + n then None
      else
        match Decode(stream[4 + n..])
        case Some((data, rest)) => Some((stream[4..4 + n] + data, rest))
        case None => None
  }

  /** The frames of non-empty chunks of at most STREAM_CHUNK bytes. */
  ghost predicate Framable(chunks: seq<Bytes>) {
    forall c :: c in chunks ==> 0 < |c| <= STREAM_CHUNK
  }

  function Frames(chunks: seq<Bytes>): Bytes
    requires Framable(chunks)
  {
    if chunks == [] then [] else Frame(chunks[0]) + Frames(chunks[1..])
  }

  lemma {:induction false} FramesAppend(chunks: seq<Bytes>, c: Bytes)
    requires Framable(chunks) && 0 < |c| <= STREAM_CHUNK
    ensures Framable(chunks + [c]) && Frames(chunks + [c]) == Frames(chunks) + Frame(c)
  {
    if chunks == [] {
      assert chunks + [c] == [c] && Frames([c]) == Frame(c) + Frames([]);
    } else {
      assert (chunks + [c])[0] == chunks[0] && (chunks + [c])[1..] == chunks[1..] + [c];
      FramesAppend(chunks[1..], c);
      assert Frame(chunks[0]) + (Frames(chunks[1..]) + Frame(c)) == (Frame(chunks[0]) + Frames(chunks[1..])) + Frame(c);
    }
  }

  lemma ConcatOneMore(chunks: seq<Bytes>, c: Bytes)
    ensures Concat(chunks + [c]) == Concat(chunks) + c
  {
    ConcatAppend(chunks, [c]);
    assert Concat([c]) == c + Concat([]);
  }

  lemma DecodeFrame(chunk: Bytes, more: Bytes)
    requires 0 < |chunk| <= STREAM_CHUNK
    ensures Decode(Frame(chunk) + more) ==
      match Decode(more)
      case Some((data, rest)) => Some((chunk + data, rest))
      case None => None
  {
    var stream := Frame(chunk) + more;
    assert stream == PackLength(|chunk|) + (chunk + more);
    UnpackUndoesPack(|chunk|, chunk + more);
    assert stream[4..4 + |chunk|] == chunk && stream[4 + |chunk|..] == more;
  }

  lemma DecodeTerminator(rest: Bytes)
    ensures Decode(PackLength(0) + rest) == Some(([], rest))
  {
    UnpackUndoesPack(0, rest);
    assert (PackLength(0) + rest)[4..] == rest;
  }

  /** Framing undoes: the terminated stream decodes to exactly the bytes of the chunks,
      and leaves alone whatever follows it. */
  lemma {:induction false} DecodeUndoesFrames(chunks: seq<Bytes>, rest: Bytes)
    requires Framable(chunks)
    ensures Decode(Frames(chunks) + (PackLength(0) + rest)) == Some((Concat(chunks), rest))
  {
    hide Decode, PackLength;
    var end := PackLength(0) + rest;
    if chunks == [] {
      assert Frames(chunks) + end == end;
      DecodeTerminator(rest);
    } else {
      assert Frames(chunks) + end == Frame(chunks[0]) + (Frames(chunks[1..]) + end);
      DecodeUndoesFrames(chunks[1..], rest);
      DecodeFrame(chunks[0], Frames(chunks[1..]) + end);
    }
  }

  /** A stream cut short never passes for a shorter file: no proper prefix decodes. */
  lemma {:induction false} CutStreamNeverDecodes(chunks: seq<Bytes>, cut: Bytes)
    requires Framable(chunks)
    requires cut < Frames(chunks) + PackLength(0)
    ensures Decode(cut) == None
  {
    if |cut| >= 4 && chunks != [] {
      var c := chunks[0];
      var whole := Frames(chunks[1..]) + PackLength(0);
      assert Frames(chunks) + PackLength(0) == Frame(c) + whole;
      assert cut == (Frame(c) + whole)[..|cut|];
      if |cut| < 4 + |c| {
        assert cut == PackLength(|c|) + c[..|cut| - 4];
        UnpackUndoesPack(|c|, c[..|cut| - 4]);
      } else {
        var more := whole[..|cut| - 4 - |c|];
        assert cut == Frame(c) + more && more < whole;
        CutStreamNeverDecodes(chunks[1..], more);
        DecodeFrame(c, more);
      }
    }
  }

  /** A file being read: each read gives any non-empty amount up to what was asked, and
      nothing only at the end. */
  class Source {
    const data: Bytes
    var pos: nat

    constructor (data: Bytes)
      ensures this.data == data && pos == 0
    {
      this.data := data;
      pos := 0;
    }

    method Read(most: nat) returns (chunk: Bytes)
      requires pos <= |data| && most > 0
      modifies this
      ensures old(pos) <= pos <= |data| && chunk == data[old(pos)..pos]
      ensures |chunk| <= most
      ensures chunk == [] <==> old(pos) == |data|
    {
      var room := if |data| - pos < most then |data| - pos else most;
      if room == 0 {
        return [];
      }
      var n :| 1 <= n <= room;
      chunk := data[pos..pos + n];
      pos := pos + n;
    }
  }

  /** The daemon connection. Send number `breaksAt` fails, having sent an arbitrary part
      of its bytes. */
  class Socket {
    const breaksAt: Option<nat>
    var sends: nat
    var sent: Bytes
    var connected: bool

    constructor (breaksAt: Option<nat>)
      ensures this.breaksAt == breaksAt && sends == 0 && sent == [] && !connected
    {
      this.breaksAt := breaksAt;
      sends, sent, connected := 0, [], false;
    }

    method SendAll(bytes: Bytes) returns (ok: bool)
      requires bytes != []
      modifies this`sends, this`sent
      ensures sends == old(sends) + 1
      ensures ok <==> breaksAt != Some(old(sends))
      ensures if ok then sent == old(sent) + bytes else old(sent) <= sent < old(sent) + bytes
    {
      var broken := breaksAt == Some(sends);
      sends := sends + 1;
      if broken {
        var n :| 0 <= n < |bytes|;
        sent := sent + bytes[..n];
        return false;
      }
      sent := sent + bytes;
      return true;
    }
  }

  /** Sends one frame after those already sent. */
  method SendFrame(s: Socket, chunk: Bytes, ghost chunks: seq<Bytes>) returns (ok: bool)
    requires Framable(chunks) && 0 < |chunk| <= STREAM_CHUNK && s.sent == Frames(chunks)
    modifies s`sends, s`sent
    ensures s.sends == old(s.sends) + 1 && (ok <==> s.breaksAt != Some(old(s.sends)))
    ensures Framable(chunks + [chunk])
    ensures ok ==> s.sent == Frames(chunks + [chunk])
    ensures !ok ==> s.sent < Frames(chunks + [chunk]) + PackLength(0) && Decode(s.sent) == None
  {
    hide Decode, PackLength, Frames;
    FramesAppend(chunks, chunk);
    ok := s.SendAll(PackLength(|chunk|) + chunk);
    if !ok {
      CutStreamNeverDecodes(chunks + [chunk], s.sent);
    }
  }

  /** Ends the stream. */
  method SendTerminator(s: Socket, ghost chunks: seq<Bytes>) returns (ok: bool)
    requires Framable(chunks) && s.sent == Frames(chunks)
    modifies s`sends, s`sent
    ensures s.sends == old(s.sends) + 1 && (ok <==> s.breaksAt != Some(old(s.sends)))
    ensures ok ==> s.sent == Frames(chunks) + PackLength(0) && Decode(s.sent) == Some((Concat(chunks), []))
    ensures !ok ==> s.sent < Frames(chunks) + PackLength(0) && Decode(s.sent) == None
  {
    hide Decode, PackLength, Frames;
    ok := s.SendAll(PackLength(0));
    if ok {
      assert PackLength(0) + [] == PackLength(0);
      DecodeUndoesFrames(chunks, []);
    } else {
      CutStreamNeverDecodes(chunks, s.sent);
    }
  }

  /** Streams a file, after the command has been sent. If every send goes through the
      daemon decodes exactly the file, whatever the reads returned; if one breaks, it
      never decodes anything. It breaks off exactly at the send that fails. The connection is
      closed either way. */
  method Stream(f: Source, s: Socket) returns (ok: bool, ghost chunks: seq<Bytes>)
    requires f.pos == 0 && s.sends == 0 && s.sent == []
    modifies f, s
    ensures !s.connected
    ensures f.pos <= |f.data|
    ensures ok ==> Decode(s.sent) == Some((f.data, []))
    ensures !ok ==> Decode(s.sent) == None
    ensures forall c :: c in chunks ==> 0 < |c| <= 1024
    ensures ok <==> s.breaksAt.None? || s.breaksAt.value > |chunks|
    ensures s.sends == if ok then |chunks| + 1 else s.breaksAt.value + 1
    ensures Framable(chunks) && Concat(chunks) == f.data[..f.pos] && (ok ==> f.pos == |f.data|)
    ensures if ok then s.sent == Frames(chunks) + PackLength(0) else s.sent < Frames(chunks) + PackLength(0)
  {
    chunks := [];
    assert Concat(chunks) == [] && Frames(chunks) == [];
    hide Decode, PackLength, Concat, Frames;
    s.connected := true;
    var chunk := f.Read(STREAM_CHUNK);
    while chunk != []
      invariant f.pos <= |f.data| && |chunk| <= STREAM_CHUNK
      invariant chunk == [] ==> f.pos == |f.data|
      invariant Framable(chunks) && s.sent == Frames(chunks)
      invariant s.sends == |chunks| && (s.breaksAt.Some? ==> s.breaksAt.value >= |chunks|)
      invariant Concat(chunks) + chunk == f.data[..f.pos]
      decreases |f.data| - f.pos, |chunk|
    {
      ConcatOneMore(chunks, chunk);
      var sent := SendFrame(s, chunk, chunks);
      chunks := chunks + [chunk];
      if !sent {
        s.connected := false;
        return false, chunks;
      }
      ghost var before := f.pos;
      chunk := f.Read(STREAM_CHUNK);
      assert f.data[..f.pos] == f.data[..before] + chunk;
    }
    assert f.data[..f.pos] == f.data && Concat(chunks) + [] == Concat(chunks);
    ok := SendTerminator(s, chunks);
    s.connected := false;
  }
}
