/** Reading a whole input stream through a fixed-size buffer (`readBytesFromStream`). */
module Streams {
  import opened Text

  /** The size of the buffer each `read` call fills. */
  const BUFFER_SIZE: nat := 1024

  /** The concatenation of the chunks a stream delivers, in order. */
  function Flatten(chunks: seq<seq<byte>>): (r: seq<byte>)
  {
    if chunks == [] then [] else Flatten(chunks[..|chunks| - 1]) + chunks[|chunks| - 1]
  }

  /** A stream over `data` that delivers it `n` bytes at a time (the last read may be shorter). */
  function Chunks(data: seq<byte>, n: nat): (r: seq<seq<byte>>)
    requires n > 0
    ensures forall i :: 0 <= i < |r| ==> 0 < |r[i]| <= n
    decreases |data|
  {
    if |data| <= n then (if data == [] then [] else [data])
    else [data[..n]] + Chunks(data[n..], n)
  }

  lemma {:induction false} FlattenPrepend(c: seq<byte>, chunks: seq<seq<byte>>)
    ensures Flatten([c] + chunks) == c + Flatten(chunks)
    decreases |chunks|
  {
    if chunks != [] {
      var last := chunks[|chunks| - 1];
      assert ([c] + chunks)[..|chunks|] == [c] + chunks[..|chunks| - 1];
      FlattenPrepend(c, chunks[..|chunks| - 1]);
    }
  }

  /** Reading a stream that delivers a file in buffer-sized chunks yields the file's bytes. */
  lemma {:induction false} FlattenChunks(data: seq<byte>, n: nat)
    requires n > 0
    ensures Flatten(Chunks(data, n)) == data
    decreases |data|
  {
    if |data| > n {
      FlattenPrepend(data[..n], Chunks(data[n..], n));
      FlattenChunks(data[n..], n);
      assert data[..n] + data[n..] == data;
    } else if data != [] {
      assert Flatten([data]) == Flatten([]) + data;
    }
  }

  /** `readBytesFromStream`: appends every chunk read to a growing buffer until end of stream. */
  method ReadBytesFromStream(stream: seq<seq<byte>>) returns (bytes: seq<byte>)
    ensures bytes == Flatten(stream)
  {
    bytes := [];
    var i := 0;
    while i < |stream|
      invariant 0 <= i <= |stream|
      invariant bytes == Flatten(stream[..i])
    {
      assert stream[..i + 1][..i] == stream[..i];
      bytes := bytes + stream[i];
      i := i + 1;
    }
    assert stream[..i] == stream;
  }

  /** Reading `data` through a stream that hands it out `BUFFER_SIZE` bytes at a time gives
      back `data`. */
  method ReadAll(data: seq<byte>) returns (bytes: seq<byte>)
    ensures bytes == data
  {
    bytes := ReadBytesFromStream(Chunks(data, BUFFER_SIZE));
    FlattenChunks(data, BUFFER_SIZE);
  }
}
