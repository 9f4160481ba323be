/** Byte streams made of self-delimiting chunks: the first byte of a chunk determines its length. */
module Framing {
  import opened Words

  type Bytes = seq<byte>

  /** `b` is a sequence of complete chunks. */
  ghost predicate Framed(len: byte -> nat, b: Bytes)
    decreases |b|
  {
    b != [] ==> 1 <= len(b[0]) <= |b| && Framed(len, b[len(b[0])..])
  }

  ghost function Chunks(len: byte -> nat, b: Bytes): seq<Bytes>
    requires Framed(len, b)
    decreases |b|
  {
    if b == [] then [] else [b[..len(b[0])]] + Chunks(len, b[len(b[0])..])
  }

  ghost function Joined(cs: seq<Bytes>): Bytes {
    if cs == [] then [] else cs[0] + Joined(cs[1..])
  }

  ghost predicate IsChunk(len: byte -> nat, c: Bytes) { c != [] && |c| == len(c[0]) }

  lemma ChunkInFront(len: byte -> nat, c: Bytes, rest: Bytes)
    requires IsChunk(len, c) && Framed(len, rest)
    ensures Framed(len, c + rest) && Chunks(len, c + rest) == [c] + Chunks(len, rest)
  {
    assert (c + rest)[|c|..] == rest && (c + rest)[..|c|] == c;
  }

  /** Joining chunks and splitting the result gives the chunks back. */
  lemma {:induction false} ChunksOfJoined(len: byte -> nat, cs: seq<Bytes>)
    requires forall i :: 0 <= i < |cs| ==> IsChunk(len, cs[i])
    ensures Framed(len, Joined(cs)) && Chunks(len, Joined(cs)) == cs
    decreases |cs|
  {
    if cs != [] {
      ChunksOfJoined(len, cs[1..]);
      ChunkInFront(len, cs[0], Joined(cs[1..]));
    }
  }

  lemma {:induction false} ChunksAreChunks(len: byte -> nat, b: Bytes)
    requires Framed(len, b)
    ensures forall i :: 0 <= i < |Chunks(len, b)| ==> IsChunk(len, Chunks(len, b)[i])
    ensures b != [] ==> Chunks(len, b) != []
    decreases |b|
  {
    if b != [] { ChunksAreChunks(len, b[len(b[0])..]); }
  }

  lemma {:induction false} JoinedOfChunks(len: byte -> nat, b: Bytes)
    requires Framed(len, b)
    ensures Joined(Chunks(len, b)) == b
    decreases |b|
  {
    if b != [] {
      var c, rest := b[..len(b[0])], b[len(b[0])..];
      JoinedOfChunks(len, rest);
      assert Chunks(len, b)[0] == c && Chunks(len, b)[1..] == Chunks(len, rest);
      assert c + rest == b;
    }
  }

  lemma {:induction false} JoinedConcat(xs: seq<Bytes>, ys: seq<Bytes>)
    ensures Joined(xs + ys) == Joined(xs) + Joined(ys)
    decreases |xs|
  {
    if xs == [] {
      assert xs + ys == ys;
    } else {
      JoinedConcat(xs[1..], ys);
      assert (xs + ys)[1..] == xs[1..] + ys;
    }
  }

  /** Splitting a concatenation is splitting the parts. */
  lemma ChunksConcat(len: byte -> nat, a: Bytes, b: Bytes)
    requires Framed(len, a) && Framed(len, b)
    ensures Framed(len, a + b) && Chunks(len, a + b) == Chunks(len, a) + Chunks(len, b)
  {
    var xs, ys := Chunks(len, a), Chunks(len, b);
    JoinedOfChunks(len, a);
    JoinedOfChunks(len, b);
    JoinedConcat(xs, ys);
    ChunksAreChunks(len, a);
    ChunksAreChunks(len, b);
    ChunksOfJoined(len, xs + ys);
  }
}
