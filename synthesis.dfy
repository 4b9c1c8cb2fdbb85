/**
 * Audio accumulation: the speech service streams tagged chunks, and
 * `generate_audio` appends the payload of every chunk tagged "audio" to a
 * byte buffer in arrival order, ignoring every other chunk.
 */
module Synthesis {

  newtype byte = b: int | 0 <= b < 256

  /** One streamed chunk: its `type` tag and, for audio, its `data` bytes. */
  datatype Chunk = Chunk(kind: string, data: seq<byte>)

  /** The tag of chunks that carry audio. */
  const AudioKind: string := "audio"

  predicate IsAudio(c: Chunk) {
    c.kind == AudioKind
  }

  /** What one chunk adds to the buffer. */
  function Payload(c: Chunk): seq<byte> {
    if IsAudio(c) then c.data else []
  }

  /** The buffer after the given chunks have been consumed, one at a time. */
  function AudioOf(chunks: seq<Chunk>): seq<byte> {
    if chunks == [] then [] else AudioOf(chunks[..|chunks| - 1]) + Payload(chunks[|chunks| - 1])
  }

  /** The audio chunks of a stream, in stream order. */
  function AudioChunks(chunks: seq<Chunk>): (r: seq<Chunk>)
    ensures |r| <= |chunks|
    ensures forall i :: 0 <= i < |r| ==> IsAudio(r[i]) && r[i] in chunks
    ensures forall c :: c in chunks && IsAudio(c) ==> c in r
  {
    if chunks == [] then []
    else if IsAudio(chunks[0]) then [chunks[0]] + AudioChunks(chunks[1..])
    else AudioChunks(chunks[1..])
  }

  /** Filtering two stretches of stream one after the other keeps stream order. */
  lemma {:induction false} AudioChunksAppend(a: seq<Chunk>, b: seq<Chunk>)
    ensures AudioChunks(a + b) == AudioChunks(a) + AudioChunks(b)
  {
    if a == [] {
      assert a + b == b;
    } else {
      assert (a + b)[1..] == a[1..] + b;
      AudioChunksAppend(a[1..], b);
    }
  }

  /** The data of the given chunks, one after another. */
  function ConcatData(chunks: seq<Chunk>): seq<byte> {
    if chunks == [] then [] else chunks[0].data + ConcatData(chunks[1..])
  }

  /** Consuming two stretches of stream one after the other appends their audio. */
  lemma {:induction false} AudioOfAppend(a: seq<Chunk>, b: seq<Chunk>)
    ensures AudioOf(a + b) == AudioOf(a) + AudioOf(b)
    decreases |b|
  {
    if b == [] {
      assert a + b == a;
    } else {
      assert (a + b)[..|a + b| - 1] == a + b[..|b| - 1];
      AudioOfAppend(a, b[..|b| - 1]);
    }
  }

  /** The buffer is the in-order concatenation of the data of the audio chunks. */
  lemma {:induction false} AudioOfIsFilterConcat(chunks: seq<Chunk>)
    ensures AudioOf(chunks) == ConcatData(AudioChunks(chunks))
  {
    if chunks != [] {
      var first, rest := chunks[0], chunks[1..];
      assert [first] + rest == chunks;
      assert [first][..0] == [];
      assert AudioOf([first]) == Payload(first);
      AudioOfAppend([first], rest);
      AudioOfIsFilterConcat(rest);
      assert ConcatData(AudioChunks(chunks)) == Payload(first) + ConcatData(AudioChunks(rest));
    }
  }

  /** A stream with no audio chunk, the empty stream among them, yields no bytes. */
  lemma {:induction false} AudioOfNoAudio(chunks: seq<Chunk>)
    requires forall i :: 0 <= i < |chunks| ==> !IsAudio(chunks[i])
    ensures AudioOf(chunks) == []
  {
    if chunks != [] {
      AudioOfNoAudio(chunks[..|chunks| - 1]);
    }
  }

  /** The buffer only grows: what it held after `i` chunks is a prefix of what it holds after `j`. */
  lemma AudioOfGrows(chunks: seq<Chunk>, i: nat, j: nat)
    requires i <= j <= |chunks|
    ensures AudioOf(chunks[..i]) <= AudioOf(chunks[..j])
  {
    assert chunks[..j] == chunks[..i] + chunks[i..j];
    AudioOfAppend(chunks[..i], chunks[i..j]);
  }

  /** Two audio chunks around a word-boundary chunk give their bytes in order. */
  lemma AudioOfExample(ab: seq<byte>, cd: seq<byte>, meta: Chunk)
    requires !IsAudio(meta)
    ensures AudioOf([Chunk(AudioKind, ab), meta, Chunk(AudioKind, cd)]) == ab + cd
  {
    var s := [Chunk(AudioKind, ab), meta, Chunk(AudioKind, cd)];
    assert s[..2] == [Chunk(AudioKind, ab), meta];
    assert s[..2][..1] == [Chunk(AudioKind, ab)];
    assert s[..2][..1][..0] == [];
    assert AudioOf(s[..2][..1]) == ab;
    assert AudioOf(s[..2]) == ab;
  }

  /**
   * `generate_audio(text, voice_name, speed)`: opens the stream for the
   * given text, voice and rate and accumulates the audio payloads. The
   * service is a parameter standing for the chunks it streams.
   */
  method GenerateAudio(text: string, voice: string, speed: string,
                       service: (string, string, string) -> seq<Chunk>)
    returns (audio: seq<byte>)
    ensures audio == AudioOf(service(text, voice, speed))
    ensures audio == ConcatData(AudioChunks(service(text, voice, speed)))
  {
    var chunks := service(text, voice, speed);
    audio := [];
    var i := 0;
    while i < |chunks|
      invariant 0 <= i <= |chunks|
      invariant audio == AudioOf(chunks[..i])
    {
      assert chunks[..i + 1][..i] == chunks[..i];
      if chunks[i].kind == AudioKind {
        audio := audio + chunks[i].data;
      }
      i := i + 1;
    }
    assert chunks[..i] == chunks;
    AudioOfIsFilterConcat(chunks);
  }
}
