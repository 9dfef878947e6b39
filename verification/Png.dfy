/** The chunk walk over a PNG file (RFC 2083, sections 3.2 and 4.1.4): eight bytes of signature, then
    chunks of length, type, data and CRC, the last of type IEND. The walk does not check the CRC. */
module Png {

  import opened Collections

  const IEND: seq<byte> := [0x49, 0x45, 0x4E, 0x44]
  const TEXT_E: seq<byte> := [0x74, 0x45, 0x58, 0x74]
  const TEXT_I: seq<byte> := [0x69, 0x54, 0x58, 0x74]
  const TEXT_Z: seq<byte> := [0x7A, 0x54, 0x58, 0x74]
  const EXIF: seq<byte> := [0x65, 0x58, 0x49, 0x66]

  predicate IsMetadata(kind: seq<byte>) {
    kind == TEXT_E || kind == TEXT_I || kind == TEXT_Z || kind == EXIF
  }

  // ----- The format -----

  datatype Chunk = Chunk(kind: seq<byte>, data: seq<byte>, crc: seq<byte>) {
    predicate Valid() { |kind| == 4 && |crc| == 4 && |data| < 0x1_0000_0000 }
  }

  /** Four bytes, most significant first. */
  function Number(b: seq<byte>): (n: nat)
    requires |b| == 4
    ensures n < 0x1_0000_0000
  {
    ((b[0] as int * 256 + b[1] as int) * 256 + b[2] as int) * 256 + b[3] as int
  }

  function Digits(n: nat): (b: seq<byte>)
    requires n < 0x1_0000_0000
    ensures |b| == 4
  {
    [(n / 0x100_0000) as byte, (n / 0x1_0000 % 256) as byte, (n / 0x100 % 256) as byte, (n % 256) as byte]
  }

  lemma NumberOfDigits(n: nat)
    requires n < 0x1_0000_0000
    ensures Number(Digits(n)) == n
  {
    assert n / 0x1_0000 == n / 0x100 / 256;
    assert n / 0x100_0000 == n / 0x1_0000 / 256;
  }

  lemma DigitsOfNumber(b: seq<byte>)
    requires |b| == 4
    ensures Digits(Number(b)) == b
  {
    var n := Number(b);
    assert n / 0x100 == (b[0] as int * 256 + b[1] as int) * 256 + b[2] as int;
    assert n / 0x1_0000 == b[0] as int * 256 + b[1] as int by { assert n / 0x1_0000 == n / 0x100 / 256; }
    assert n / 0x100_0000 == b[0] as int by { assert n / 0x100_0000 == n / 0x1_0000 / 256; }
  }

  function Serialise(c: Chunk): (b: seq<byte>)
    requires c.Valid()
    ensures |b| == |c.data| + 12
  {
    Digits(|c.data|) + c.kind + c.data + c.crc
  }

  predicate AllValid(chunks: seq<Chunk>) {
    forall i | 0 <= i < |chunks| :: chunks[i].Valid()
  }

  function SerialiseAll(chunks: seq<Chunk>): seq<byte>
    requires AllValid(chunks)
  {
    if chunks == [] then [] else Serialise(chunks[0]) + SerialiseAll(chunks[1..])
  }

  /** Whole chunks of which the first IEND is empty and comes last. */
  ghost predicate Complete(chunks: seq<Chunk>) {
    && chunks != [] && AllValid(chunks)
    && (forall i | 0 <= i < |chunks| - 1 :: chunks[i].kind != IEND)
    && chunks[|chunks| - 1].kind == IEND && chunks[|chunks| - 1].data == []
  }

  predicate AnyMetadata(chunks: seq<Chunk>) {
    exists i :: 0 <= i < |chunks| && IsMetadata(chunks[i].kind)
  }

  // ----- The walk -----

  /** What the walk reports: a proper end, how many metadata chunks it met, a chunk cut short. */
  datatype Report = Report(ended: bool, metadata: nat, truncated: bool)

  function LengthAt(image: seq<byte>, pos: nat): nat
    requires pos + 12 <= |image|
  {
    Number(image[pos..pos + 4])
  }

  function KindAt(image: seq<byte>, pos: nat): seq<byte>
    requires pos + 12 <= |image|
  {
    image[pos + 4..pos + 8]
  }

  function WalkFrom(image: seq<byte>, pos: nat): Report
    decreases |image| - pos
  {
    if pos + 12 > |image| then Report(false, 0, false) else
    var length, kind := LengthAt(image, pos), KindAt(image, pos);
    var flagged := if IsMetadata(kind) then 1 else 0;
    if pos + length + 12 > |image| then Report(false, flagged, true)
    else if kind == IEND then Report(length == 0 && pos + length + 12 == |image|, flagged, false)
    else var rest := WalkFrom(image, pos + length + 12); rest.(metadata := rest.metadata + flagged)
  }

  /** A report on the rest of a file, with the metadata met so far. */
  function Ahead(rest: Report, metadata: nat): Report {
    rest.(metadata := rest.metadata + metadata)
  }

  lemma WalkOn(image: seq<byte>, pos: nat, metadata: nat)
    requires pos + 12 <= |image|
    ensures var (next, kind) := (pos + LengthAt(image, pos) + 12, KindAt(image, pos));
            var met := if IsMetadata(kind) then metadata + 1 else metadata;
            Ahead(WalkFrom(image, pos), metadata) ==
            if next > |image| then Report(false, met, true)
            else if kind == IEND then Report(LengthAt(image, pos) == 0 && next == |image|, met, false)
            else Ahead(WalkFrom(image, next), met)
  {
  }

  /** The loop over the chunks of a file. */
  method WalkChunks(image: seq<byte>) returns (report: Report)
    ensures report == WalkFrom(image, 8)
  {
    var pos, metadata := 8, 0;
    ghost var whole := WalkFrom(image, 8);
    while pos + 12 <= |image|
      invariant pos >= 8
      invariant whole == Ahead(WalkFrom(image, pos), metadata)
      decreases |image| - pos
    {
      WalkOn(image, pos, metadata);
      var length, chunk, done := ReadChunk(image, pos);
      metadata := if IsMetadata(chunk) then metadata + 1 else metadata;
      if pos + length + 12 > |image| {
        return Report(false, metadata, true);
      }
      pos := pos + length + 12;
      if done {
        return Report(length == 0 && pos == |image|, metadata, false);
      }
    }
    report := Report(false, metadata, false);
  }

  method ReadChunk(image: seq<byte>, pos: nat) returns (length: nat, chunk: seq<byte>, done: bool)
    requires pos + 12 <= |image|
    ensures length == LengthAt(image, pos) && chunk == KindAt(image, pos) && (done <==> chunk == IEND)
  {
    length, chunk := Number(image[pos..pos + 4]), image[pos + 4..pos + 8];
    done := chunk == IEND;
  }

  lemma ChunkLayout(image: seq<byte>, pos: nat, c: Chunk, rest: seq<byte>)
    requires c.Valid() && pos <= |image| && image[pos..] == Serialise(c) + rest
    ensures pos + 12 <= pos + |c.data| + 12 <= |image|
    ensures LengthAt(image, pos) == |c.data| && KindAt(image, pos) == c.kind
    ensures image[pos + |c.data| + 12..] == rest
  {
    var b := Serialise(c);
    assert image[pos..pos + 4] == image[pos..][..4] == b[..4] == Digits(|c.data|);
    NumberOfDigits(|c.data|);
    assert image[pos + 4..pos + 8] == image[pos..][4..8] == b[4..8] == c.kind;
    assert image[pos + |b|..] == image[pos..][|b|..] == rest;
  }

  lemma TailOfComplete(chunks: seq<Chunk>)
    requires Complete(chunks) && chunks[0].kind != IEND
    ensures Complete(chunks[1..])
    ensures AnyMetadata(chunks) <==> IsMetadata(chunks[0].kind) || AnyMetadata(chunks[1..])
  {
    var rest := chunks[1..];
    assert forall i | 0 <= i < |rest| :: rest[i] == chunks[i + 1];
    if i :| 0 <= i < |rest| && IsMetadata(rest[i].kind) {
      assert IsMetadata(chunks[i + 1].kind);
    }
  }

  lemma CompleteAtOnce(chunks: seq<Chunk>)
    requires Complete(chunks) && chunks[0].kind == IEND
    ensures |chunks| == 1 && chunks[0].data == [] && !AnyMetadata(chunks)
  {
  }

  lemma WalkPast(image: seq<byte>, pos: nat, next: nat)
    requires pos + 12 <= |image| && next == pos + LengthAt(image, pos) + 12 <= |image|
    requires KindAt(image, pos) != IEND
    ensures WalkFrom(image, pos).ended == WalkFrom(image, next).ended
    ensures WalkFrom(image, pos).truncated == WalkFrom(image, next).truncated
    ensures WalkFrom(image, pos).metadata > 0 <==> IsMetadata(KindAt(image, pos)) || WalkFrom(image, next).metadata > 0
  {
  }

  lemma WalkEnds(image: seq<byte>, pos: nat)
    requires pos + 12 == |image| && LengthAt(image, pos) == 0 && KindAt(image, pos) == IEND
    ensures WalkFrom(image, pos) == Report(true, 0, false)
  {
  }

  /** Every serialised complete list of chunks is walked to its end, whatever comes before it. */
  lemma {:induction false} CompleteIsAccepted(image: seq<byte>, pos: nat, chunks: seq<Chunk>)
    requires Complete(chunks) && pos <= |image| && image[pos..] == SerialiseAll(chunks)
    ensures WalkFrom(image, pos).ended && !WalkFrom(image, pos).truncated
    ensures WalkFrom(image, pos).metadata > 0 <==> AnyMetadata(chunks)
    decreases |chunks|
  {
    var c, rest := chunks[0], SerialiseAll(chunks[1..]);
    ChunkLayout(image, pos, c, rest);
    var next := pos + |c.data| + 12;
    if c.kind == IEND {
      CompleteAtOnce(chunks);
      assert chunks[1..] == [];
      assert |image[next..]| == 0;
      WalkEnds(image, pos);
    } else {
      TailOfComplete(chunks);
      WalkPast(image, pos, next);
      CompleteIsAccepted(image, next, chunks[1..]);
    }
  }

  /** The bytes of a chunk that fits are the serialisation of what the walk reads there. */
  lemma ChunkRead(image: seq<byte>, pos: nat) returns (c: Chunk)
    requires pos + 12 <= |image| && pos + LengthAt(image, pos) + 12 <= |image|
    ensures c.Valid() && c.kind == KindAt(image, pos) && |c.data| == LengthAt(image, pos)
    ensures image[pos..pos + |c.data| + 12] == Serialise(c)
  {
    var length := LengthAt(image, pos);
    var next := pos + length + 12;
    c := Chunk(KindAt(image, pos), image[pos + 8..pos + 8 + length], image[pos + 8 + length..next]);
    DigitsOfNumber(image[pos..pos + 4]);
    assert image[pos..next] == image[pos..pos + 4] + c.kind + c.data + c.crc;
  }

  lemma CompleteCons(c: Chunk, rest: seq<Chunk>)
    requires c.Valid() && c.kind != IEND && Complete(rest)
    ensures Complete([c] + rest) && SerialiseAll([c] + rest) == Serialise(c) + SerialiseAll(rest)
  {
    assert ([c] + rest)[1..] == rest;
  }

  lemma CompleteAlone(c: Chunk)
    requires c.Valid() && c.kind == IEND && c.data == []
    ensures Complete([c]) && SerialiseAll([c]) == Serialise(c)
  {
    assert [c][1..] == [];
    assert Serialise(c) + [] == Serialise(c);
  }

  lemma EndsHereOrLater(image: seq<byte>, pos: nat)
    requires WalkFrom(image, pos).ended
    ensures pos + 12 <= |image| && pos + LengthAt(image, pos) + 12 <= |image|
    ensures KindAt(image, pos) == IEND ==> LengthAt(image, pos) == 0 && pos + 12 == |image|
    ensures KindAt(image, pos) != IEND ==> WalkFrom(image, pos + LengthAt(image, pos) + 12).ended
  {
  }

  /** `chunks` is complete and spells the bytes from `pos` on. */
  ghost predicate Spells(chunks: seq<Chunk>, image: seq<byte>, pos: nat) {
    Complete(chunks) && pos <= |image| && image[pos..] == SerialiseAll(chunks)
  }

  lemma SpellsOneMore(c: Chunk, rest: seq<Chunk>, image: seq<byte>, pos: nat, next: nat)
    requires c.Valid() && c.kind != IEND && Spells(rest, image, next)
    requires pos <= next && image[pos..next] == Serialise(c)
    ensures Spells([c] + rest, image, pos)
  {
    CompleteCons(c, rest);
    assert image[pos..] == image[pos..next] + image[next..];
  }

  lemma SpellsTheLast(c: Chunk, image: seq<byte>, pos: nat)
    requires c.Valid() && c.kind == IEND && c.data == []
    requires pos <= |image| && image[pos..|image|] == Serialise(c)
    ensures Spells([c], image, pos)
  {
    CompleteAlone(c);
  }

  /** A walk that ends properly has read a complete list of chunks. */
  lemma {:induction false} AcceptedIsComplete(image: seq<byte>, pos: nat) returns (chunks: seq<Chunk>)
    requires WalkFrom(image, pos).ended
    ensures Spells(chunks, image, pos)
    decreases |image| - pos
  {
    EndsHereOrLater(image, pos);
    var c := ChunkRead(image, pos);
    var next := pos + |c.data| + 12;
    if c.kind == IEND {
      chunks := [c];
      SpellsTheLast(c, image, pos);
    } else {
      var rest := AcceptedIsComplete(image, next);
      chunks := [c] + rest;
      SpellsOneMore(c, rest, image, pos, next);
    }
  }

  function AfterSignature(image: seq<byte>): seq<byte> {
    if |image| < 8 then [] else image[8..]
  }

  /** The walk ends properly exactly when the bytes after the signature are whole chunks whose first IEND
      is empty and closes the file. */
  lemma EndedIff(image: seq<byte>)
    ensures WalkFrom(image, 8).ended <==>
            exists chunks :: Complete(chunks) && AfterSignature(image) == SerialiseAll(chunks)
  {
    if WalkFrom(image, 8).ended {
      var chunks := AcceptedIsComplete(image, 8);
      assert Complete(chunks) && AfterSignature(image) == SerialiseAll(chunks);
    }
    forall chunks | Complete(chunks) && AfterSignature(image) == SerialiseAll(chunks)
      ensures WalkFrom(image, 8).ended
    {
      assert |SerialiseAll(chunks)| >= 12;
      CompleteIsAccepted(image, 8, chunks);
    }
  }

  /** If a file is accepted, none of its proper prefixes is. */
  lemma {:induction false} NoProperPrefixIsAccepted(image: seq<byte>, n: nat, pos: nat)
    requires n < |image| && WalkFrom(image, pos).ended
    ensures !WalkFrom(image[..n], pos).ended
    decreases |image| - pos
  {
    var short := image[..n];
    if pos + 12 <= n {
      assert short[pos..pos + 4] == image[pos..pos + 4];
      assert short[pos + 4..pos + 8] == image[pos + 4..pos + 8];
      var next := pos + LengthAt(image, pos) + 12;
      if KindAt(image, pos) != IEND && next <= n {
        NoProperPrefixIsAccepted(image, n, next);
      }
    }
  }
}
