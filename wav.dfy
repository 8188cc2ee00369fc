/** Byte-level helpers of the voice pipeline: the little-endian 32-bit writer,
    the merge of several canonical 44-byte-header WAV files into one, and the
    500-unit chunking of text for the online text-to-speech endpoint. */
module Wav {
  import opened JavaLang

  /** A Java `byte` viewed as its unsigned value, the way WAV headers read it. */
  type Byte = b: int | 0 <= b < 256

  type Bytes = seq<Byte>

  /** Size of the canonical RIFF/WAVE header every segment starts with. */
  const HeaderSize: nat := 44

  const TwoTo32: int := 0x1_0000_0000

  /** The longest text sent in one online speech-synthesis request. */
  const TtsMaxInputLength: nat := 500

  // ---------------------------------------------------------------- 32-bit little endian

  /** The four bytes `(value >> 8k) & 0xFF`, k = 0..3, that the writer stores.
      For every integer, `(v >> 8k) & 0xFF` is the floor division by 256^k
      reduced modulo 256, which is what Dafny's `/` and `%` compute. */
  function Encode32LE(v: int): (r: Bytes)
    ensures |r| == 4
  {
    [v % 256, (v / 256) % 256, (v / 65536) % 256, (v / 16777216) % 256]
  }

  /** The unsigned little-endian value a WAV reader takes from four bytes. */
  function Decode32LE(b: Bytes): (v: int)
    requires |b| == 4
    ensures 0 <= v < TwoTo32
  {
    b[0] as int + 256 * (b[1] as int) + 65536 * (b[2] as int) + 16777216 * (b[3] as int)
  }

  lemma {:induction false} MulAtLeast(d: int, k: int)
    requires d > 0 && k > 0
    ensures d * (k - 1) + d == d * k && d * k >= d
    decreases k
  {
    if k > 1 {
      MulAtLeast(d, k - 1);
    }
  }

  lemma MulSucc(a: int, p: int)
    ensures (a + 1) * p == a * p + p
  {
  }

  lemma DivModUnique(v: int, d: int, q: int, r: int)
    requires d > 0 && v == d * q + r && 0 <= r < d
    ensures v / d == q && v % d == r
  {
    var q0 := v / d;
    if q0 < q {
      MulAtLeast(d, q - q0);
      assert false;
    } else if q < q0 {
      MulAtLeast(d, q0 - q);
      assert false;
    }
  }

  /** What the writer stores is read back as the value modulo 2^32: a size
      that does not fit in 32 bits wraps around. */
  lemma DecodeEncode(v: int)
    ensures Decode32LE(Encode32LE(v)) == v % TwoTo32
  {
    var q1, r0 := v / 256, v % 256;
    var q2, r1 := q1 / 256, q1 % 256;
    var q3, r2 := q2 / 256, q2 % 256;
    var q4, r3 := q3 / 256, q3 % 256;
    DivModUnique(v, 65536, q2, 256 * r1 + r0);
    DivModUnique(v, 16777216, q3, 65536 * r2 + 256 * r1 + r0);
    DivModUnique(v, TwoTo32, q4, 16777216 * r3 + 65536 * r2 + 256 * r1 + r0);
  }

  /** Writes `value` little-endian into `buf[offset..offset + 4]`. */
  method WriteLittleEndianInt(buf: array<Byte>, offset: int, value: int)
    requires 0 <= offset && offset + 4 <= buf.Length
    modifies buf
    ensures buf[offset..offset + 4] == Encode32LE(value)
    ensures forall i | 0 <= i < buf.Length && !(offset <= i < offset + 4) :: buf[i] == old(buf[i])
  {
    buf[offset] := value % 256;
    buf[offset + 1] := (value / 256) % 256;
    buf[offset + 2] := (value / 65536) % 256;
    buf[offset + 3] := (value / 16777216) % 256;
  }

  // ---------------------------------------------------------------- merging segments

  /** The audio payload a later segment contributes: everything after its header,
      or nothing when it is null or not longer than a header. */
  function Payload(seg: Option<Bytes>): Bytes {
    if seg.Some? && |seg.value| > HeaderSize then seg.value[HeaderSize..] else []
  }

  /** Payloads of `segs`, concatenated in order. */
  function Payloads(segs: seq<Option<Bytes>>): Bytes {
    if segs == [] then [] else Payloads(segs[..|segs| - 1]) + Payload(segs[|segs| - 1])
  }

  /** The first file with its RIFF size (offset 4) and data size (offset 40) fields
      replaced by the sizes of the whole merged file. */
  function PatchHeader(b: Bytes): Bytes
    requires |b| >= HeaderSize
  {
    b[..4] + Encode32LE(|b| - 8) + b[8..40] + Encode32LE(|b| - HeaderSize) + b[HeaderSize..]
  }

  /** The merge: null for a null or empty list, the first file unchanged when it is
      no longer than a header, otherwise the first file's header (sizes patched)
      followed by the first file's payload and every later payload. */
  function Merged(segments: Option<seq<Option<Bytes>>>): (r: Option<Bytes>)
    requires segments.Some? && |segments.value| > 0 ==> segments.value[0].Some?
    ensures r.Some? <==> segments.Some? && |segments.value| > 0
    ensures r.Some? ==> |r.value| >= |segments.value[0].value|
  {
    if segments.None? || |segments.value| == 0 then None
    else
      var first := segments.value[0].value;
      if |first| <= HeaderSize then Some(first)
      else Some(PatchHeader(first + Payloads(segments.value[1..])))
  }

  lemma PatchedBytes(b: Bytes, r: Bytes)
    requires |b| >= HeaderSize && |r| == |b|
    requires r[4..8] == Encode32LE(|b| - 8) && r[40..44] == Encode32LE(|b| - HeaderSize)
    requires forall k | 0 <= k < |b| && !(4 <= k < 8) && !(40 <= k < 44) :: r[k] == b[k]
    ensures r == PatchHeader(b)
  {
    var p := PatchHeader(b);
    forall k | 0 <= k < |b| ensures r[k] == p[k] {
      if 4 <= k < 8 {
        assert r[k] == r[4..8][k - 4];
      } else if 40 <= k < 44 {
        assert r[k] == r[40..44][k - 40];
      }
    }
  }

  /** Later payloads are appended one segment at a time. */
  lemma PayloadsStep(segs: seq<Option<Bytes>>, i: nat)
    requires 1 <= i < |segs|
    ensures Payloads(segs[1..i + 1]) == Payloads(segs[1..i]) + Payload(segs[i])
  {
    assert segs[1..i + 1][..i - 1] == segs[1..i];
  }

  /** The buffer loop of the merge: the first file, then every later payload. */
  method AppendPayloads(first: Bytes, segs: seq<Option<Bytes>>) returns (out: Bytes)
    requires |segs| > 0
    ensures out == first + Payloads(segs[1..])
  {
    out := first;
    var i := 1;
    while i < |segs|
      invariant 1 <= i <= |segs|
      invariant out == first + Payloads(segs[1..i])
    {
      var seg := segs[i];
      if seg.Some? && |seg.value| > HeaderSize {
        out := out + seg.value[HeaderSize..];
      }
      PayloadsStep(segs, i);
      i := i + 1;
    }
    assert segs[1..i] == segs[1..];
  }

  /** Copy the bytes into an array and patch the two size fields in place. */
  method PatchSizes(out: Bytes) returns (r: Bytes)
    requires |out| >= HeaderSize
    ensures r == PatchHeader(out)
  {
    var buf := new Byte[|out|](k requires 0 <= k < |out| => out[k]);
    assert buf[..] == out;
    WriteLittleEndianInt(buf, 4, |out| - 8);
    WriteLittleEndianInt(buf, 40, |out| - HeaderSize);
    PatchedBytes(out, buf[..]);
    r := buf[..];
  }

  /** The merge as the pipeline performs it: concatenate into a growing buffer,
      copy into an array, then patch the two size fields in place. */
  method MergeWavSegments(segments: Option<seq<Option<Bytes>>>) returns (merged: Option<Bytes>)
    requires segments.Some? && |segments.value| > 0 ==> segments.value[0].Some?
    ensures merged == Merged(segments)
  {
    if segments.None? || |segments.value| == 0 {
      return None;
    }
    var segs := segments.value;
    var first := segs[0].value;
    if |first| <= HeaderSize {
      return Some(first);
    }
    var out := AppendPayloads(first, segs);
    var patched := PatchSizes(out);
    return Some(patched);
  }

  /** The merged file keeps the first file's header apart from the two size fields,
      which a reader decodes as the file length minus 8 and minus 44 (modulo 2^32),
      and it carries the first payload followed by every later payload in order. */
  lemma MergedLayout(segments: Option<seq<Option<Bytes>>>)
    requires segments.Some? && |segments.value| > 0 && segments.value[0].Some?
    requires |segments.value[0].value| > HeaderSize
    ensures Merged(segments).Some?
    ensures var first := segments.value[0].value;
            var r := Merged(segments).value;
            && |r| == |first| + |Payloads(segments.value[1..])|
            && r[..4] == first[..4]
            && Decode32LE(r[4..8]) == (|r| - 8) % TwoTo32
            && r[8..40] == first[8..40]
            && Decode32LE(r[40..44]) == (|r| - HeaderSize) % TwoTo32
            && r[HeaderSize..] == first[HeaderSize..] + Payloads(segments.value[1..])
  {
    var first := segments.value[0].value;
    var b := first + Payloads(segments.value[1..]);
    var r := Merged(segments).value;
    assert r == PatchHeader(b);
    assert r[..4] == b[..4] == first[..4];
    assert r[8..40] == b[8..40] == first[8..40];
    assert r[4..8] == Encode32LE(|b| - 8);
    assert r[40..44] == Encode32LE(|b| - HeaderSize);
    DecodeEncode(|b| - 8);
    DecodeEncode(|b| - HeaderSize);
    assert r[HeaderSize..] == b[HeaderSize..];
    assert b[HeaderSize..] == first[HeaderSize..] + Payloads(segments.value[1..]);
  }

  /** Segments that all carry `p` payload bytes contribute `p` bytes each. */
  lemma {:induction false} PayloadsOfUniformSegments(segs: seq<Option<Bytes>>, p: nat)
    requires p > 0
    requires forall i | 0 <= i < |segs| :: segs[i].Some? && |segs[i].value| == HeaderSize + p
    ensures |Payloads(segs)| == |segs| * p
  {
    if segs != [] {
      var init := segs[..|segs| - 1];
      assert forall i | 0 <= i < |init| :: init[i] == segs[i];
      PayloadsOfUniformSegments(init, p);
      assert |Payload(segs[|segs| - 1])| == p;
      MulSucc(|init|, p);
    }
  }

  /** Merging n segments of `p` payload bytes each yields a data-size field of n * p
      (as long as the merged file fits in 32 bits). */
  lemma MergedDataSize(segments: seq<Option<Bytes>>, p: nat)
    requires p > 0 && |segments| > 0
    requires forall i | 0 <= i < |segments| :: segments[i].Some? && |segments[i].value| == HeaderSize + p
    requires HeaderSize + |segments| * p < TwoTo32
    ensures Merged(Some(segments)).Some?
    ensures Decode32LE(Merged(Some(segments)).value[40..44]) == |segments| * p
  {
    MergedLayout(Some(segments));
    PayloadsOfUniformSegments(segments[1..], p);
    var r := Merged(Some(segments)).value;
    var m := |segments[1..]|;
    assert |r| - HeaderSize == p + m * p;
    MulSucc(m, p);
    assert |segments| == m + 1;
    var size := |segments| * p;
    assert |r| - HeaderSize == size;
    DivModUnique(size, TwoTo32, 0, size);
    assert Decode32LE(r[40..44]) == size % TwoTo32;
  }

  // ---------------------------------------------------------------- chunking text

  /** The pieces `text[offset..min(offset + n, |text|)]` for offset = 0, n, 2n, ...
      while offset < |text|. */
  function Chunks(text: string, n: nat): seq<string>
    requires n > 0
    decreases |text|
  {
    if text == [] then []
    else
      var end := Min(n, |text|);
      [text[..end]] + Chunks(text[end..], n)
  }

  function Concat(parts: seq<string>): string {
    if parts == [] then [] else parts[0] + Concat(parts[1..])
  }

  /** The pieces put back together are the text. */
  lemma {:induction false} ChunksConcat(text: string, n: nat)
    requires n > 0
    ensures Concat(Chunks(text, n)) == text
    decreases |text|
  {
    if text != [] {
      var end := Min(n, |text|);
      ChunksConcat(text[end..], n);
      assert text[..end] + text[end..] == text;
    }
  }

  /** Every piece holds between 1 and n units. */
  lemma {:induction false} ChunksBounded(text: string, n: nat)
    requires n > 0
    ensures forall i | 0 <= i < |Chunks(text, n)| :: 1 <= |Chunks(text, n)[i]| <= n
    decreases |text|
  {
    if text != [] {
      var end := Min(n, |text|);
      ChunksBounded(text[end..], n);
    }
  }

  /** There are ceil(|text| / n) pieces. */
  lemma {:induction false} ChunksCount(text: string, n: nat)
    requires n > 0
    ensures |Chunks(text, n)| == (|text| + n - 1) / n
    decreases |text|
  {
    if text != [] {
      var end := Min(n, |text|);
      ChunksCount(text[end..], n);
      if |text| <= n {
        DivModUnique(|text| + n - 1, n, 1, |text| - 1);
      } else {
        var x := |text| - n + n - 1;
        var q, rem := x / n, x % n;
        assert x == n * q + rem;
        MulSucc(q, n);
        DivModUnique(|text| + n - 1, n, q + 1, rem);
        assert |text[end..]| + n - 1 == x;
      }
    }
  }

  // ---------------------------------------------------------------- online synthesis

  /** One synthesis request of the online endpoint: nothing for a blank piece or
      a blank key; otherwise the returned audio, provided it is non-empty. The
      remote exchange (HTTP call, JSON parsing, audio download, errors) is the
      parameter `remote`: None when any step of it fails. */
  function CallTtsOnce(piece: string, apiKey: Option<string>, remote: string -> Option<Bytes>): (r: Option<Bytes>)
    ensures r.Some? ==> |r.value| > 0 && !IsBlank(piece) && !IsNullOrBlank(apiKey)
  {
    if IsBlank(piece) || IsNullOrBlank(apiKey) then None
    else
      match remote(piece)
      case Some(b) => if |b| > 0 then Some(b) else None
      case None => None
  }

  /** The audio of every piece whose request succeeded, in order. */
  function Synthesized(pieces: seq<string>, apiKey: Option<string>, remote: string -> Option<Bytes>): (r: seq<Option<Bytes>>)
    ensures forall i | 0 <= i < |r| :: r[i].Some? && |r[i].value| > 0
    ensures |r| <= |pieces|
  {
    if pieces == [] then []
    else
      var init := Synthesized(pieces[..|pieces| - 1], apiKey, remote);
      match CallTtsOnce(pieces[|pieces| - 1], apiKey, remote)
      case Some(b) => init + [Some(b)]
      case None => init
  }

  /** What the online synthesis produces for a text: null for a blank text or key,
      null when no piece was synthesised, otherwise the merge of the pieces'
      audio. */
  function OnlineSpeech(text: Option<string>, apiKey: Option<string>, remote: string -> Option<Bytes>): Option<Bytes> {
    if IsNullOrBlank(text) || IsNullOrBlank(apiKey) then None
    else
      var segs := Synthesized(Chunks(text.value, TtsMaxInputLength), apiKey, remote);
      if segs == [] then None else Merged(Some(segs))
  }

  /** The pieces of a suffix: the piece at `offset`, then the pieces after it. */
  lemma ChunksAt(t: string, offset: nat, n: nat)
    requires n > 0 && offset < |t|
    ensures var end := Min(offset + n, |t|);
            Chunks(t[offset..], n) == [t[offset..end]] + Chunks(t[end..], n)
  {
    var u := t[offset..];
    var k := Min(n, |u|);
    ChunksUnfold(u, n);
    assert u[..k] == t[offset..offset + k];
    assert u[k..] == t[offset + k..];
  }

  /** The first piece of a non-empty text, then the pieces of the rest. */
  lemma ChunksUnfold(u: string, n: nat)
    requires n > 0 && u != []
    ensures Chunks(u, n) == [u[..Min(n, |u|)]] + Chunks(u[Min(n, |u|)..], n)
  {
  }

  /** Synthesising one more piece appends its audio when the request succeeds. */
  lemma SynthesizedStep(done: seq<string>, piece: string, apiKey: Option<string>, remote: string -> Option<Bytes>)
    ensures Synthesized(done + [piece], apiKey, remote) ==
              Synthesized(done, apiKey, remote)
              + (if CallTtsOnce(piece, apiKey, remote).Some? then [CallTtsOnce(piece, apiKey, remote)] else [])
  {
    assert (done + [piece])[..|done|] == done;
  }

  /** One turn of the chunking loop: the next piece is cut at `offset`, and its
      audio, when the request succeeds, follows what was synthesised so far. */
  lemma PiecesStep(t: string, offset: nat, done: seq<string>, apiKey: Option<string>, remote: string -> Option<Bytes>)
    requires offset < |t|
    requires Chunks(t, TtsMaxInputLength) == done + Chunks(t[offset..], TtsMaxInputLength)
    ensures var end := Min(offset + TtsMaxInputLength, |t|);
            var piece := t[offset..end];
            && Chunks(t, TtsMaxInputLength) == (done + [piece]) + Chunks(t[end..], TtsMaxInputLength)
            && Synthesized(done + [piece], apiKey, remote)
               == Synthesized(done, apiKey, remote)
                  + (if CallTtsOnce(piece, apiKey, remote).Some? then [CallTtsOnce(piece, apiKey, remote)] else [])
  {
    var end := Min(offset + TtsMaxInputLength, |t|);
    var piece := t[offset..end];
    ChunksAt(t, offset, TtsMaxInputLength);
    assert done + ([piece] + Chunks(t[end..], TtsMaxInputLength))
        == (done + [piece]) + Chunks(t[end..], TtsMaxInputLength);
    SynthesizedStep(done, piece, apiKey, remote);
  }

  /** Online synthesis of a whole reply: split it into pieces of at most 500 units,
      synthesise each, and merge whatever came back. */
  method SynthesizeOnlineToBytes(text: Option<string>, apiKey: Option<string>, remote: string -> Option<Bytes>)
    returns (wav: Option<Bytes>)
    ensures wav == OnlineSpeech(text, apiKey, remote)
    ensures wav.Some? ==> |wav.value| > 0
  {
    if IsNullOrBlank(text) || IsNullOrBlank(apiKey) {
      return None;
    }
    var segments := SynthesizePieces(text.value, apiKey, remote);
    if segments == [] {
      return None;
    }
    wav := MergeWavSegments(Some(segments));
  }

  /** The loop over the pieces: each piece of at most 500 units is sent in turn,
      and the audio of every successful request is kept in order. */
  method SynthesizePieces(t: string, apiKey: Option<string>, remote: string -> Option<Bytes>)
    returns (segments: seq<Option<Bytes>>)
    ensures segments == Synthesized(Chunks(t, TtsMaxInputLength), apiKey, remote)
  {
    segments := [];
    ghost var done: seq<string> := [];
    var offset := 0;
    while offset < |t|
      invariant 0 <= offset <= |t|
      invariant Chunks(t, TtsMaxInputLength) == done + Chunks(t[offset..], TtsMaxInputLength)
      invariant segments == Synthesized(done, apiKey, remote)
      decreases |t| - offset
    {
      var end := Min(offset + TtsMaxInputLength, |t|);
      var piece := t[offset..end];
      var b := CallTtsOnce(piece, apiKey, remote);
      if b.Some? {
        segments := segments + [b];
      }
      PiecesStep(t, offset, done, apiKey, remote);
      done := done + [piece];
      offset := end;
    }
    assert t[offset..] == [];
    assert done == Chunks(t, TtsMaxInputLength);
  }
}
