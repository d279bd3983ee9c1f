/**
 * The block compressor of vendor/lz4.js: compressBound, and compress with
 * its compressBlock, writing into a caller-supplied byte array.
 *
 * The compressor is proved against the format of Lz4Format: whatever it
 * writes is the encoding of a list of sequences that replays to the input,
 * so the reference decoder gives the input back.
 */
module Lz4 {
  import opened Common
  import opened Lz4Format
  import opened Lz4Decode
  import opened Lz4RoundTrip

  /** Inputs of this many bytes or more are refused. */
  const MaxInputSize: nat := 0x7E00_0000
  const HashLog: nat := 16
  const HashSize: nat := 0x1_0000
  /** No match may start in the last 12 bytes (8 copy bytes plus a minimal match). */
  const MfLimit: nat := 12
  const SkipStrength: nat := 6
  /** Each miss increments this counter; the step is the counter divided by 64. */
  const FindMatchAttemptsStart: nat := 67
  const Hasher: nat := 2654435761

  datatype Lz4Error =
    | InputTooLarge
    | OutputTooSmall(available: int, needed: nat)

  /** Largest block the compressor can write for `isize` input bytes; 0 for inputs it refuses. */
  function CompressBound(isize: nat): (r: nat)
    ensures isize > MaxInputSize <==> r == 0
    ensures r < 0x8000_0000
  {
    // JavaScript's `| 0` truncates the quotient and cannot wrap: the sum stays below 2^31.
    if isize > MaxInputSize then 0 else isize + isize / 255 + 16
  }

  /** The bound is enough for every block that decodes to `isize` bytes. */
  lemma BoundCoversBlock(ss: seq<Sequence>, last: seq<byte>)
    requires AllWellFormed(ss)
    requires Covered(ss) + |last| <= MaxInputSize
    ensures |EncodeBlock(ss, last)| + 14 <= CompressBound(Covered(ss) + |last|)
  {
    BlockCost(ss, last);
  }

  /** Knuth's multiplicative hash of 4 bytes read little-endian, keeping the top 16 of 32 bits. */
  function Hash(sequence: nat): (h: nat)
    requires sequence < 0x1_0000_0000
    ensures h < HashSize
  {
    (sequence * Hasher) % 0x1_0000_0000 / 0x1_0000
  }

  // ---------------------------------------------------------------- writing into the output array

  /** `d` is `o` with `bytes` written from `from` to `to`, and nothing else changed. */
  ghost predicate Written(d: seq<byte>, o: seq<byte>, from: nat, to: nat, bytes: seq<byte>)
  {
    from + |bytes| == to <= |o| == |d|
    && forall k :: 0 <= k < |d| ==> d[k] == if from <= k < to then bytes[k - from] else o[k]
  }

  /** Writing `x` and then `y` right after it is writing `x + y`. */
  lemma WrittenChain(d0: seq<byte>, d1: seq<byte>, d2: seq<byte>,
                     from: nat, mid: nat, to: nat, x: seq<byte>, y: seq<byte>)
    requires Written(d1, d0, from, mid, x) && Written(d2, d1, mid, to, y)
    ensures Written(d2, d0, from, to, x + y)
  {
    forall k | 0 <= k < |d2|
      ensures d2[k] == if from <= k < to then (x + y)[k - from] else d0[k]
    {
      if from <= k < to {
        if k < mid {
          assert (x + y)[k - from] == x[k - from];
        } else {
          assert (x + y)[k - from] == y[k - mid];
        }
      }
    }
  }

  lemma WrittenNothing(d: seq<byte>, o: seq<byte>, from: nat)
    requires Written(d, o, from, from, [])
    ensures d == o
  {
  }

  /** What was written is in place, and the bytes around it are the old ones. */
  lemma WrittenSlice(d: seq<byte>, o: seq<byte>, from: nat, to: nat, bytes: seq<byte>)
    requires Written(d, o, from, to, bytes)
    ensures |d| == |o| && d[from..to] == bytes
    ensures d[..from] == o[..from] && d[to..] == o[to..]
  {
    assert forall k :: 0 <= k < to - from ==> d[from..to][k] == d[from + k];
  }

  /** `dst[dpos++] = v` */
  method Put(dst: array<byte>, dpos: nat, v: byte) returns (next: nat)
    requires dpos < dst.Length
    modifies dst
    ensures next == dpos + 1
    ensures Written(dst[..], old(dst[..]), dpos, next, [v])
  {
    dst[dpos] := v;
    next := dpos + 1;
  }

  lemma LengthBytesStep(n: nat)
    requires n >= 255
    ensures LengthBytes(n) == [255] + LengthBytes(n - 255)
  {
  }

  /** The extension bytes of a length: 255 while more than 254 remains, then the remainder. */
  method WriteLength(dst: array<byte>, dpos: nat, n: nat) returns (next: nat)
    requires dpos + |LengthBytes(n)| <= dst.Length
    modifies dst
    ensures next == dpos + |LengthBytes(n)|
    ensures Written(dst[..], old(dst[..]), dpos, next, LengthBytes(n))
  {
    var len := n;
    next := dpos;
    ghost var done: seq<byte> := [];
    while len > 254
      invariant Written(dst[..], old(dst[..]), dpos, next, done)
      invariant done + LengthBytes(len) == LengthBytes(n)
      invariant next + |LengthBytes(len)| == dpos + |LengthBytes(n)|
      decreases len
    {
      LengthBytesStep(len);
      ghost var before := dst[..];
      next := Put(dst, next, 255);
      WrittenChain(old(dst[..]), before, dst[..], dpos, next - 1, next, done, [255]);
      AppendAssoc(done, [255], LengthBytes(len - 255));
      done := done + [255];
      len := len - 255;
    }
    ghost var before := dst[..];
    next := Put(dst, next, len);
    WrittenChain(old(dst[..]), before, dst[..], dpos, next - 1, next, done, [len]);
  }

  /** The literals `src[start..start + count]`, byte by byte. */
  method WriteLiterals(dst: array<byte>, dpos: nat, src: seq<byte>, start: nat, count: nat)
    returns (next: nat)
    requires start + count <= |src| && dpos + count <= dst.Length
    modifies dst
    ensures next == dpos + count
    ensures Written(dst[..], old(dst[..]), dpos, next, src[start..start + count])
  {
    next := dpos;
    var i := 0;
    while i < count
      invariant 0 <= i <= count && next == dpos + i
      invariant Written(dst[..], old(dst[..]), dpos, next, src[start..start + i])
    {
      ghost var before := dst[..];
      next := Put(dst, next, src[start + i]);
      WrittenChain(old(dst[..]), before, dst[..], dpos, next - 1, next, src[start..start + i], [src[start + i]]);
      assert src[start..start + i] + [src[start + i]] == src[start..start + i + 1];
      i := i + 1;
    }
  }

  /** The extension bytes of a length nibble: none unless the length is 15 or more. */
  method EmitLengthField(dst: array<byte>, dpos: nat, n: nat) returns (next: nat)
    requires dpos + |LengthField(n)| <= dst.Length
    modifies dst
    ensures next == dpos + |LengthField(n)|
    ensures Written(dst[..], old(dst[..]), dpos, next, LengthField(n))
  {
    if n >= NibbleMax {
      next := WriteLength(dst, dpos, n - NibbleMax);
    } else {
      next := dpos;
    }
  }

  /** The token and the literal-length extension; `extra` is the match length beyond 4. */
  method EmitToken(dst: array<byte>, dpos: nat, literalsLength: nat, extra: nat) returns (next: nat)
    requires dpos + 1 + |LengthField(literalsLength)| <= dst.Length
    modifies dst
    ensures next == dpos + 1 + |LengthField(literalsLength)|
    ensures Written(dst[..], old(dst[..]), dpos, next, [Token(literalsLength, extra)] + LengthField(literalsLength))
  {
    var token := if extra < NibbleMax then extra else NibbleMax;
    // (runMask << mlBits) + token, or (literals_length << mlBits) + token
    var tokenByte := if literalsLength >= NibbleMax then NibbleMax * 16 + token else literalsLength * 16 + token;
    assert tokenByte == Token(literalsLength, extra);
    next := Put(dst, dpos, tokenByte);
    ghost var d1 := dst[..];
    next := EmitLengthField(dst, next, literalsLength);
    WrittenChain(old(dst[..]), d1, dst[..], dpos, dpos + 1, next, [tokenByte], LengthField(literalsLength));
  }

  /** The token, the literal-length extension and the literals `src[anchor..start]`. */
  method EmitLiterals(dst: array<byte>, dpos: nat, src: seq<byte>, anchor: nat, start: nat, extra: nat)
    returns (next: nat)
    requires anchor <= start <= |src|
    requires dpos + 1 + |LengthField(start - anchor)| + (start - anchor) <= dst.Length
    modifies dst
    ensures next == dpos + 1 + |LengthField(start - anchor)| + (start - anchor)
    ensures Written(dst[..], old(dst[..]), dpos, next,
                    [Token(start - anchor, extra)] + LengthField(start - anchor) + src[anchor..start])
  {
    var literalsLength := start - anchor;
    next := EmitToken(dst, dpos, literalsLength, extra);
    ghost var d1 := dst[..];
    var mid := next;
    next := WriteLiterals(dst, next, src, anchor, literalsLength);
    assert src[anchor..anchor + literalsLength] == src[anchor..start];
    WrittenChain(old(dst[..]), d1, dst[..], dpos, mid, next,
                 [Token(literalsLength, extra)] + LengthField(literalsLength), src[anchor..start]);
  }

  /** The 2-byte little-endian offset; `dst[dpos++] = offset` keeps the low byte of the number. */
  method EmitOffset(dst: array<byte>, dpos: nat, offset: nat) returns (next: nat)
    requires offset < WindowSize && dpos + 2 <= dst.Length
    modifies dst
    ensures next == dpos + 2
    ensures Written(dst[..], old(dst[..]), dpos, next, [offset % 256, offset / 256])
  {
    next := Put(dst, dpos, offset % 256);
    ghost var before := dst[..];
    next := Put(dst, next, offset / 256);  // offset >> 8
    WrittenChain(old(dst[..]), before, dst[..], dpos, dpos + 1, next, [offset % 256], [offset / 256]);
    assert [offset % 256] + [offset / 256] == [offset % 256, offset / 256];
  }

  /** The offset, then the match-length extension when the match is 19 bytes or longer. */
  method EmitMatch(dst: array<byte>, dpos: nat, offset: nat, extra: nat) returns (next: nat)
    requires offset < WindowSize && dpos + 2 + |LengthField(extra)| <= dst.Length
    modifies dst
    ensures next == dpos + 2 + |LengthField(extra)|
    ensures Written(dst[..], old(dst[..]), dpos, next, [offset % 256, offset / 256] + LengthField(extra))
  {
    next := EmitOffset(dst, dpos, offset);
    ghost var d1 := dst[..];
    next := EmitLengthField(dst, next, extra);
    WrittenChain(old(dst[..]), d1, dst[..], dpos, dpos + 2, next, [offset % 256, offset / 256], LengthField(extra));
  }

  /** The size of an encoded sequence, piece by piece. */
  lemma SequenceSize(s: Sequence)
    requires WellFormed(s)
    ensures |EncodeSequence(s)|
            == 1 + |LengthField(|s.literals|)| + |s.literals| + 2 + |LengthField(s.matchLength - MinMatch)|
  {
  }

  /**
   * Writes one sequence: token, literal length, the literals `src[anchor..start]`,
   * offset and match length (`extra` is the match length beyond 4).
   */
  method EmitSequence(dst: array<byte>, dpos: nat, src: seq<byte>, anchor: nat, start: nat,
                      offset: nat, extra: nat) returns (next: nat)
    requires anchor <= start <= |src| && 0 < offset < WindowSize
    requires dpos + |EncodeSequence(Sequence(src[anchor..start], offset, extra + MinMatch))| <= dst.Length
    modifies dst
    ensures next == dpos + |EncodeSequence(Sequence(src[anchor..start], offset, extra + MinMatch))|
    ensures Written(dst[..], old(dst[..]), dpos, next,
                    EncodeSequence(Sequence(src[anchor..start], offset, extra + MinMatch)))
  {
    ghost var s := Sequence(src[anchor..start], offset, extra + MinMatch);
    assert |s.literals| == start - anchor && s.matchLength - MinMatch == extra;
    SequenceSize(s);
    ghost var head := [Token(start - anchor, extra)] + LengthField(start - anchor) + src[anchor..start];
    ghost var tail := [offset % 256, offset / 256] + LengthField(extra);
    next := EmitLiterals(dst, dpos, src, anchor, start, extra);
    ghost var d1 := dst[..];
    var mid := next;
    next := EmitMatch(dst, next, offset, extra);
    WrittenChain(old(dst[..]), d1, dst[..], dpos, mid, next, head, tail);
    AppendAssoc(head, [offset % 256, offset / 256], LengthField(extra));
  }

  /** Writes the closing sequence: token, literal length and the literals `src[anchor..]`. */
  method EmitLast(dst: array<byte>, dpos: nat, src: seq<byte>, anchor: nat) returns (next: nat)
    requires anchor <= |src| && dpos + |EncodeLast(src[anchor..])| <= dst.Length
    modifies dst
    ensures next == dpos + |EncodeLast(src[anchor..])|
    ensures Written(dst[..], old(dst[..]), dpos, next, EncodeLast(src[anchor..]))
  {
    // the source copies the literals with `while (pos < src.length) dst[dpos++] = src[pos++]`
    next := EmitLiterals(dst, dpos, src, anchor, |src|, 0);
    assert src[anchor..|src|] == src[anchor..];
  }

  // ---------------------------------------------------------------- finding matches

  /** `while (pos < srcLength && src[pos] == src[ref]) { pos++; ref++ }` */
  method ExtendMatch(src: seq<byte>, start: nat, ref: nat, limit: nat) returns (end: nat)
    requires ref < start <= limit <= |src|
    ensures start <= end <= limit
    ensures RepeatsBack(src, start, start - ref, end - start)
    ensures end == limit || src[end] != src[end - (start - ref)]
  {
    end := start;
    var r := ref;
    while end < limit && src[end] == src[r]
      invariant start <= end <= limit && r == end - (start - ref)
      invariant RepeatsBack(src, start, start - ref, end - start)
    {
      end := end + 1;
      r := r + 1;
    }
  }

  lemma BytePairs(a: byte, b: byte, c: byte, d: byte)
    requires a * 256 + b == c * 256 + d
    ensures a == c && b == d
  {
  }

  /** Four bytes equal, then an extension found by ExtendMatch, make the whole match. */
  lemma MatchRepeats(src: seq<byte>, start: nat, offset: nat, end: nat)
    requires 0 < offset <= start && start + MinMatch <= end <= |src|
    requires src[start] == src[start - offset] && src[start + 1] == src[start - offset + 1]
    requires src[start + 2] == src[start - offset + 2] && src[start + 3] == src[start - offset + 3]
    requires RepeatsBack(src, start + MinMatch, offset, end - start - MinMatch)
    ensures RepeatsBack(src, start, offset, end - start)
  {
    forall k | start <= k < end ensures src[k] == src[k - offset] {
      if k >= start + MinMatch {
        assert src[k] == src[k - offset];
      }
    }
  }

  /**
   * The 4 input bytes at `p` repeat `offset` bytes earlier, within the 64 KiB
   * window, at a position where the search loop may start a match.
   */
  ghost predicate RepeatAt(src: seq<byte>, p: nat, offset: nat)
  {
    0 < offset < WindowSize && offset <= p && p + MinMatch + MfLimit < |src|
    && src[p..p + MinMatch] == src[p - offset..p - offset + MinMatch]
  }

  /** Some 4 input bytes repeat within the window: the only inputs compressBlock can shrink. */
  ghost predicate HasRepeat(src: seq<byte>)
  {
    exists p: nat, offset: nat :: RepeatAt(src, p, offset)
  }

  /** The four byte comparisons of the match test find a repeat. */
  lemma RepeatFromBytes(src: seq<byte>, p: nat, ref: nat)
    requires ref < p && p - ref < WindowSize && p + MinMatch + MfLimit < |src|
    requires src[p] == src[ref] && src[p + 1] == src[ref + 1]
    requires src[p + 2] == src[ref + 2] && src[p + 3] == src[ref + 3]
    ensures HasRepeat(src)
  {
    assert src[p..p + MinMatch] == [src[p], src[p + 1], src[p + 2], src[p + 3]];
    assert src[ref..ref + MinMatch] == [src[ref], src[ref + 1], src[ref + 2], src[ref + 3]];
    assert RepeatAt(src, p, p - ref);
  }

  // ---------------------------------------------------------------- the scan up to the first match

  /** The 32-bit word compressBlock hashes at `pos`: the 4 bytes there, read little-endian. */
  function Word(src: seq<byte>, pos: nat): (w: nat)
    requires pos + MinMatch <= |src|
    ensures w < 0x1_0000_0000
  {
    (src[pos + 1] as int * 256 + src[pos] as int) + (src[pos + 3] as int * 256 + src[pos + 2] as int) * 0x1_0000
  }

  /** The hash table compress starts from: every slot empty. */
  const ZeroTable: seq<int> := seq(HashSize, _ => 0)

  /** A hash table whose slots hold 0 (empty) or `p + 1` for a position p before `pos`. */
  ghost predicate TableBelow(table: seq<int>, pos: nat)
  {
    |table| == HashSize && forall i :: 0 <= i < HashSize ==> 0 <= table[i] <= pos
  }

  /**
   * The probe at `pos` is a match: the slot of its hash names an earlier
   * position, less than 64 KiB back, holding the same 4 bytes.
   */
  ghost predicate Hit(src: seq<byte>, table: seq<int>, pos: nat)
    requires pos + MinMatch <= |src| && TableBelow(table, pos)
  {
    var ref := table[Hash(Word(src, pos))] - 1;
    0 <= ref && pos - ref < WindowSize
    && src[ref] == src[pos] && src[ref + 1] == src[pos + 1]
    && src[ref + 2] == src[pos + 2] && src[ref + 3] == src[pos + 3]
  }

  /**
   * Whether compressBlock's main loop, run from `pos` with `table` and the
   * miss counter `attempts`, meets a match before it reaches the last 16
   * input bytes. Each miss stores `pos + 1` under the hash and moves on by
   * `attempts / 64`.
   */
  ghost predicate FindsMatch(src: seq<byte>, table: seq<int>, pos: nat, attempts: nat)
    requires TableBelow(table, pos) && attempts >= FindMatchAttemptsStart
    decreases |src| - pos
  {
    pos + MinMatch + MfLimit < |src|
    && (Hit(src, table, pos)
        || FindsMatch(src, table[Hash(Word(src, pos)) := pos + 1], pos + attempts / 64, attempts + 1))
  }

  /**
   * One probe keeps the question "does the scan from the start meet a match?"
   * answered by what was emitted so far and by the scan that is left.
   */
  lemma ScanKeepsFindsMatch(src: seq<byte>, table: seq<int>, pos: nat, attempts: nat, seqs: seq<Sequence>,
                            seqs': seq<Sequence>, table': seq<int>, pos': nat, attempts': nat)
    requires pos + MinMatch + MfLimit < |src| && TableBelow(table, pos) && attempts >= FindMatchAttemptsStart
    requires TableBelow(table', pos') && attempts' >= FindMatchAttemptsStart
    requires table' == table[Hash(Word(src, pos)) := pos + 1]
    requires seqs' != seqs <==> Hit(src, table, pos)
    requires seqs' == seqs ==> pos' == pos + attempts / 64 && attempts' == attempts + 1
    requires seqs' != seqs ==> |seqs'| == |seqs| + 1
    ensures (seqs != [] || FindsMatch(src, table, pos, attempts)) <==> (seqs' != [] || FindsMatch(src, table', pos', attempts'))
  {
  }

  /** A scan that meets a match has seen 4 input bytes repeated within the window. */
  lemma {:induction false} FindsMatchHasRepeat(src: seq<byte>, table: seq<int>, pos: nat, attempts: nat)
    requires TableBelow(table, pos) && attempts >= FindMatchAttemptsStart
    requires FindsMatch(src, table, pos, attempts)
    ensures HasRepeat(src)
    decreases |src| - pos
  {
    if Hit(src, table, pos) {
      RepeatFromBytes(src, pos, table[Hash(Word(src, pos))] - 1);
    } else {
      FindsMatchHasRepeat(src, table[Hash(Word(src, pos)) := pos + 1], pos + attempts / 64, attempts + 1);
    }
  }

  /**
   * Five equal bytes at the start of an input of 18 bytes or more are always
   * matched: the probe at 0 fills the slot that the probe at 1 then hits.
   */
  lemma RunAtStartFindsMatch(src: seq<byte>)
    requires |src| > 1 + MinMatch + MfLimit
    requires src[0] == src[1] == src[2] == src[3] == src[4]
    ensures FindsMatch(src, ZeroTable, 0, FindMatchAttemptsStart)
  {
  }

  /**
   * What the compressor has produced so far: sequences that are well formed,
   * replay to the first `anchor` input bytes, and are encoded in at most
   * anchor + anchor/255 bytes.
   */
  ghost predicate Progress(src: seq<byte>, seqs: seq<Sequence>, anchor: nat)
  {
    anchor <= |src| && Replayable(0, seqs) && AllWellFormed(seqs) && Covered(seqs) == anchor
    && ExpandFrom([], seqs) == src[..anchor]
    && |EncodeSequences(seqs)| <= anchor + anchor / 255
  }

  /** Replaying a match against literals taken from `src` rebuilds `src` up to the match's end. */
  lemma ApplyFromSource(src: seq<byte>, anchor: nat, s: Sequence, end: nat)
    requires anchor + |s.literals| + s.matchLength == end <= |src|
    requires s.literals == src[anchor..anchor + |s.literals|]
    requires 0 < s.offset <= anchor + |s.literals|
    requires RepeatsBack(src, anchor + |s.literals|, s.offset, s.matchLength)
    ensures Apply(src[..anchor], s) == src[..end]
  {
    var start := anchor + |s.literals|;
    assert src[..anchor] + s.literals == src[..start];
    CopyMatchFromSource(src, start, s.offset, s.matchLength);
  }

  lemma AppendReplays(src: seq<byte>, seqs: seq<Sequence>, anchor: nat, s: Sequence, end: nat)
    requires WellFormed(s) && anchor + |s.literals| + s.matchLength == end <= |src|
    requires Replayable(0, seqs) && ExpandFrom([], seqs) == src[..anchor] && Covered(seqs) == anchor
    requires s.literals == src[anchor..anchor + |s.literals|] && s.offset <= anchor + |s.literals|
    requires RepeatsBack(src, anchor + |s.literals|, s.offset, s.matchLength)
    ensures Replayable(0, seqs + [s]) && ExpandFrom([], seqs + [s]) == src[..end]
  {
    ExpandSnoc([], seqs, s);
    ApplyFromSource(src, anchor, s, end);
  }

  lemma AppendCost(seqs: seq<Sequence>, s: Sequence, anchor: nat)
    requires AllWellFormed(seqs) && WellFormed(s)
    requires |EncodeSequences(seqs)| <= anchor + anchor / 255
    ensures AllWellFormed(seqs + [s])
    ensures EncodeSequences(seqs + [s]) == EncodeSequences(seqs) + EncodeSequence(s)
    ensures |EncodeSequences(seqs + [s])|
            <= (anchor + |s.literals| + s.matchLength) + (anchor + |s.literals| + s.matchLength) / 255
  {
    EncodeSequencesSnoc(seqs, s);
    SequenceCost(s);
    DivAdd(anchor, |s.literals|);
    assert (anchor + |s.literals|) / 255 <= (anchor + |s.literals| + s.matchLength) / 255;
  }

  /** A match found at `start`, `offset` bytes back and ending at `end`, extends the progress to `end`. */
  lemma AppendMatch(src: seq<byte>, seqs: seq<Sequence>, anchor: nat, start: nat, offset: nat, end: nat)
    requires Progress(src, seqs, anchor)
    requires anchor <= start && 0 < offset <= start && offset < WindowSize
    requires start + MinMatch <= end <= |src|
    requires RepeatsBack(src, start, offset, end - start)
    ensures WellFormed(Sequence(src[anchor..start], offset, end - start))
    ensures Progress(src, seqs + [Sequence(src[anchor..start], offset, end - start)], end)
    ensures EncodeSequences(seqs + [Sequence(src[anchor..start], offset, end - start)])
            == EncodeSequences(seqs) + EncodeSequence(Sequence(src[anchor..start], offset, end - start))
  {
    var s := Sequence(src[anchor..start], offset, end - start);
    assert |s.literals| == start - anchor;
    AppendReplays(src, seqs, anchor, s, end);
    AppendCost(seqs, s, anchor);
    CoveredSnoc(seqs, s);
  }


  // ---------------------------------------------------------------- the compressor

  /** The bytes written for the sequences so far, plus the closing sequence, fit in the bound. */
  lemma LastFits(src: seq<byte>, seqs: seq<Sequence>, anchor: nat)
    requires Progress(src, seqs, anchor) && |src| <= MaxInputSize
    ensures |EncodeSequences(seqs)| + |EncodeLast(src[anchor..])| + 14 <= CompressBound(|src|)
  {
    var last := src[anchor..];
    LastCost(last);
    DivAdd(anchor, |last|);
    assert anchor + |last| == |src|;
  }

  /**
   * The body of the match branch of compressBlock: a match of at least 4
   * bytes at `start` against `ref`; extends it up to `srcLength` and writes
   * the sequence that ends the literals run begun at `anchor`.
   */
  method EncodeMatch(src: seq<byte>, dst: array<byte>, dpos: nat, anchor: nat, start: nat, ref: nat,
                     srcLength: nat, ghost seqs: seq<Sequence>, ghost sIdx: nat, ghost eIdx: nat)
    returns (pos: nat, next: nat, ghost s: Sequence)
    requires anchor <= start && ref < start && start - ref < WindowSize
    requires start + MinMatch < srcLength && srcLength + MfLimit == |src| && |src| < MaxInputSize
    requires src[start] == src[ref] && src[start + 1] == src[ref + 1]
    requires src[start + 2] == src[ref + 2] && src[start + 3] == src[ref + 3]
    requires Progress(src, seqs, anchor)
    requires dpos == sIdx + |EncodeSequences(seqs)| && sIdx + CompressBound(|src|) <= eIdx <= dst.Length
    modifies dst
    ensures start + MinMatch <= pos <= srcLength
    ensures s == Sequence(src[anchor..start], start - ref, pos - start) && WellFormed(s)
    ensures pos == srcLength || src[pos] != src[pos - (start - ref)]
    ensures Progress(src, seqs + [s], pos)
    ensures EncodeSequences(seqs + [s]) == EncodeSequences(seqs) + EncodeSequence(s)
    ensures next == dpos + |EncodeSequence(s)|
    ensures Written(dst[..], old(dst[..]), dpos, next, EncodeSequence(s))
  {
    var offset := start - ref;
    pos := start + MinMatch;
    var r := ref + MinMatch;
    pos := ExtendMatch(src, pos, r, srcLength);
    // match_length = pos - match_length: the length beyond the 4 bytes already compared
    var matchLength := pos - start - MinMatch;
    s := Sequence(src[anchor..start], offset, pos - start);
    assert s == Sequence(src[anchor..start], offset, matchLength + MinMatch);
    assert Progress(src, seqs + [s], pos) && dpos + |EncodeSequence(s)| <= eIdx
           && EncodeSequences(seqs + [s]) == EncodeSequences(seqs) + EncodeSequence(s) by {
      MatchRepeats(src, start, offset, pos);
      AppendMatch(src, seqs, anchor, start, offset, pos);
      MatchFits(src, seqs, s, pos, dpos, sIdx, eIdx);
    }
    next := EmitSequence(dst, dpos, src, anchor, start, offset, matchLength);
  }

  /** The sequence just found still fits in the output window. */
  lemma MatchFits(src: seq<byte>, seqs: seq<Sequence>, s: Sequence, end: nat, dpos: nat, sIdx: nat, eIdx: nat)
    requires WellFormed(s) && AllWellFormed(seqs) && |src| <= MaxInputSize
    requires Progress(src, seqs + [s], end)
    requires EncodeSequences(seqs + [s]) == EncodeSequences(seqs) + EncodeSequence(s)
    requires dpos == sIdx + |EncodeSequences(seqs)| && sIdx + CompressBound(|src|) <= eIdx
    ensures dpos + |EncodeSequence(s)| <= eIdx
  {
    assert end / 255 <= |src| / 255;
  }

  /** The closing sequence: the literals from `anchor` to the end of the input. */
  method FinishBlock(src: seq<byte>, dst: array<byte>, dpos: nat, anchor: nat,
                     ghost seqs: seq<Sequence>, ghost sIdx: nat, ghost eIdx: nat)
    returns (next: nat)
    requires Progress(src, seqs, anchor) && |src| < MaxInputSize
    requires dpos == sIdx + |EncodeSequences(seqs)| && sIdx + CompressBound(|src|) <= eIdx <= dst.Length
    modifies dst
    ensures next == dpos + |EncodeLast(src[anchor..])|
    ensures next + 14 <= sIdx + CompressBound(|src|)
    ensures Written(dst[..], old(dst[..]), dpos, next, EncodeLast(src[anchor..]))
  {
    LastFits(src, seqs, anchor);
    next := EmitLast(dst, dpos, src, anchor);
  }

  /**
   * One round of compressBlock's main loop at `pos`: hash the 4 bytes there,
   * look up and replace the previous position with that hash, and either skip
   * ahead (no usable match) or encode the match and move `anchor` past it.
   * `piece` is what this round appends to the block.
   */
  method SearchStep(src: seq<byte>, dst: array<byte>, hashTable: array<int>, pos: nat, anchor: nat, dpos: nat,
                    findMatchAttempts: nat, srcLength: nat, ghost seqs: seq<Sequence>, ghost sIdx: nat, ghost eIdx: nat)
    returns (pos': nat, anchor': nat, dpos': nat, findMatchAttempts': nat,
             ghost seqs': seq<Sequence>, ghost piece: seq<byte>)
    requires pos + MinMatch < srcLength && srcLength + MfLimit == |src| && |src| < MaxInputSize
    requires anchor <= pos && findMatchAttempts >= FindMatchAttemptsStart
    requires hashTable.Length == HashSize
    requires forall i :: 0 <= i < HashSize ==> 0 <= hashTable[i] <= pos
    requires Progress(src, seqs, anchor) && (anchor == 0 ==> seqs == [])
    requires dpos == sIdx + |EncodeSequences(seqs)| && sIdx + CompressBound(|src|) <= eIdx <= dst.Length
    modifies dst, hashTable
    ensures pos < pos' && anchor <= anchor' <= pos' && anchor' <= srcLength
    ensures findMatchAttempts' >= FindMatchAttemptsStart
    ensures forall i :: 0 <= i < HashSize ==> 0 <= hashTable[i] <= pos'
    ensures Progress(src, seqs', anchor') && (anchor' == 0 ==> seqs' == [])
    ensures AllWellFormed(seqs') && EncodeSequences(seqs') == EncodeSequences(seqs) + piece
    ensures dpos' == dpos + |piece| && Written(dst[..], old(dst[..]), dpos, dpos', piece)
    ensures seqs' != seqs ==> HasRepeat(src)
    ensures hashTable[..] == old(hashTable[..])[Hash(Word(src, pos)) := pos + 1]
    ensures seqs' != seqs <==> Hit(src, old(hashTable[..]), pos)
    ensures seqs' == seqs ==> pos' == pos + findMatchAttempts / 64 && findMatchAttempts' == findMatchAttempts + 1
                              && anchor' == anchor && dpos' == dpos
    ensures seqs' != seqs ==> findMatchAttempts' == FindMatchAttemptsStart && anchor' == pos' && |seqs'| == |seqs| + 1
  {
    var sequenceLowBits: int := src[pos + 1] as int * 256 + src[pos] as int;
    var sequenceHighBits: int := src[pos + 3] as int * 256 + src[pos + 2] as int;
    ghost var table := hashTable[..];
    var ref := Probe(src, hashTable, pos);
    if ref < 0 || (pos - ref) / 0x1_0000 > 0
       || src[ref + 3] as int * 256 + src[ref + 2] as int != sequenceHighBits
       || src[ref + 1] as int * 256 + src[ref] as int != sequenceLowBits
    {
      var step := findMatchAttempts / 64;  // findMatchAttempts++ >> skipStrength
      findMatchAttempts' := findMatchAttempts + 1;
      pos' := pos + step;
      anchor', dpos', seqs', piece := anchor, dpos, seqs, [];
      assert EncodeSequences(seqs) + [] == EncodeSequences(seqs);
      assert dst[..] == old(dst[..]);
    } else {
      findMatchAttempts' := FindMatchAttemptsStart;
      BytePairs(src[ref + 3], src[ref + 2], src[pos + 3], src[pos + 2]);
      BytePairs(src[ref + 1], src[ref], src[pos + 1], src[pos]);
      pos', dpos', seqs', piece := TakeMatch(src, dst, dpos, anchor, pos, ref, srcLength, seqs, sIdx, eIdx);
      anchor' := pos';
    }
  }

  /** Look up the hash of the 4 bytes at `pos` and store `pos + 1` in its slot: the previous position there, or -1. */
  method Probe(src: seq<byte>, hashTable: array<int>, pos: nat) returns (ref: int)
    requires pos + MinMatch <= |src| && hashTable.Length == HashSize
    modifies hashTable
    ensures ref == old(hashTable[..])[Hash(Word(src, pos))] - 1
    ensures hashTable[..] == old(hashTable[..])[Hash(Word(src, pos)) := pos + 1]
  {
    // Math.imul works on the int32 reading of the word; the low 32 bits of the product are the same.
    var hash := Hash(Word(src, pos));
    ref := hashTable[hash] - 1;
    hashTable[hash] := pos + 1;
  }

  /** The probe at `pos` found the same 4 bytes at `ref`: emit the sequence ending in the match there. */
  method TakeMatch(src: seq<byte>, dst: array<byte>, dpos: nat, anchor: nat, pos: nat, ref: nat,
                   srcLength: nat, ghost seqs: seq<Sequence>, ghost sIdx: nat, ghost eIdx: nat)
    returns (pos': nat, dpos': nat, ghost seqs': seq<Sequence>, ghost piece: seq<byte>)
    requires anchor <= pos && ref < pos && pos - ref < WindowSize
    requires pos + MinMatch < srcLength && srcLength + MfLimit == |src| && |src| < MaxInputSize
    requires src[pos] == src[ref] && src[pos + 1] == src[ref + 1]
    requires src[pos + 2] == src[ref + 2] && src[pos + 3] == src[ref + 3]
    requires Progress(src, seqs, anchor)
    requires dpos == sIdx + |EncodeSequences(seqs)| && sIdx + CompressBound(|src|) <= eIdx <= dst.Length
    modifies dst
    ensures pos < pos' <= srcLength && |seqs'| == |seqs| + 1 && HasRepeat(src)
    ensures Progress(src, seqs', pos') && AllWellFormed(seqs') && EncodeSequences(seqs') == EncodeSequences(seqs) + piece
    ensures dpos' == dpos + |piece| && Written(dst[..], old(dst[..]), dpos, dpos', piece)
  {
    RepeatFromBytes(src, pos, ref);
    ghost var s;
    pos', dpos', s := EncodeMatch(src, dst, dpos, anchor, pos, ref, srcLength, seqs, sIdx, eIdx);
    seqs', piece := seqs + [s], EncodeSequence(s);
  }

  /**
   * The main loop of compressBlock: probe position after position, emitting a
   * sequence at each match, until the last 16 input bytes are near.
   */
  method Scan(src: seq<byte>, dst: array<byte>, hashTable: array<int>, sIdx: nat, eIdx: nat)
    returns (anchor: nat, dpos: nat, ghost seqs: seq<Sequence>)
    requires MfLimit < |src| < MaxInputSize && sIdx + CompressBound(|src|) <= eIdx <= dst.Length
    requires hashTable.Length == HashSize && forall i :: 0 <= i < HashSize ==> hashTable[i] == 0
    modifies dst, hashTable
    ensures anchor <= |src| - MfLimit && Progress(src, seqs, anchor) && (anchor == 0 ==> seqs == [])
    ensures dpos == sIdx + |EncodeSequences(seqs)| && Written(dst[..], old(dst[..]), sIdx, dpos, EncodeSequences(seqs))
    ensures seqs != [] ==> HasRepeat(src)
    ensures seqs != [] <==> FindsMatch(src, ZeroTable, 0, FindMatchAttemptsStart)
  {
    dpos, anchor, seqs := sIdx, 0, [];
    var findMatchAttempts: nat := FindMatchAttemptsStart;
    var srcLength := |src| - MfLimit;
    var pos: nat := 0;
    assert hashTable[..] == ZeroTable;
    while pos + MinMatch < srcLength
      invariant anchor <= pos && anchor <= srcLength
      invariant findMatchAttempts >= FindMatchAttemptsStart
      invariant forall i :: 0 <= i < HashSize ==> 0 <= hashTable[i] <= pos
      invariant Progress(src, seqs, anchor) && (anchor == 0 ==> seqs == [])
      invariant dpos == sIdx + |EncodeSequences(seqs)|
      invariant Written(dst[..], old(dst[..]), sIdx, dpos, EncodeSequences(seqs))
      invariant seqs != [] ==> HasRepeat(src)
      invariant FindsMatch(src, ZeroTable, 0, FindMatchAttemptsStart) <==>
                  seqs != [] || FindsMatch(src, hashTable[..], pos, findMatchAttempts)
      decreases |src| - pos
    {
      ghost var before := dst[..];
      ghost var piece;
      var next;
      ghost var seqs';
      ghost var table, pos0, attempts0 := hashTable[..], pos, findMatchAttempts;
      pos, anchor, next, findMatchAttempts, seqs', piece :=
        SearchStep(src, dst, hashTable, pos, anchor, dpos, findMatchAttempts, srcLength, seqs, sIdx, eIdx);
      ScanKeepsFindsMatch(src, table, pos0, attempts0, seqs, seqs', hashTable[..], pos, findMatchAttempts);
      WrittenChain(old(dst[..]), before, dst[..], sIdx, dpos, next, EncodeSequences(seqs), piece);
      seqs, dpos := seqs', next;
    }
  }

  /**
   * compressBlock: the greedy LZ4 match finder. Hashes the 4 bytes at each
   * position, takes the previous position with the same hash if it holds the
   * same 4 bytes within 64 KiB, extends the match and emits a sequence. After
   * consecutive misses it skips ahead faster. Returns the end of the block in
   * `dst`, or 0 when no match was found (nothing is written then).
   */
  method CompressBlock(src: seq<byte>, dst: array<byte>, hashTable: array<int>, sIdx: nat, eIdx: nat)
    returns (r: Result<nat, Lz4Error>, ghost seqs: seq<Sequence>, ghost last: seq<byte>)
    requires eIdx <= dst.Length
    requires hashTable.Length == HashSize && forall i :: 0 <= i < HashSize ==> hashTable[i] == 0
    modifies dst, hashTable
    ensures r == Failure(InputTooLarge) <==> |src| >= MaxInputSize
    ensures r.Failure? && r.error.OutputTooSmall? <==>
              |src| < MaxInputSize && |src| > MfLimit && eIdx - sIdx < CompressBound(|src|)
    ensures r.Failure? && r.error.OutputTooSmall? ==>
              r.error == OutputTooSmall(eIdx - sIdx, CompressBound(|src|))
    ensures r.Success? && |src| <= MfLimit ==> r.value == 0
    ensures r.Failure? || (r.Success? && r.value == 0) ==> dst[..] == old(dst[..])
    ensures r.Success? && r.value != 0 ==>
              sIdx < r.value <= eIdx
              && AllWellFormed(seqs) && Replayable(0, seqs)
              && Written(dst[..], old(dst[..]), sIdx, r.value, EncodeBlock(seqs, last)) && ExpandFrom([], seqs) + last == src
              && |last| >= MfLimit
              && r.value - sIdx + 14 <= CompressBound(|src|)
              && seqs != [] && HasRepeat(src)
    ensures r.Success? && r.value == 0 ==> seqs == []
    ensures r.Success? ==> (r.value == 0 <==> !FindsMatch(src, ZeroTable, 0, FindMatchAttemptsStart))
  {
    var dlen: int := eIdx - sIdx;
    seqs, last := [], src;
    if |src| >= MaxInputSize {
      r := Failure(InputTooLarge);
      return;
    }
    if |src| <= MfLimit {
      r := Success(0);
      return;
    }
    var n := CompressBound(|src|);
    if dlen < n {
      r := Failure(OutputTooSmall(dlen, n));
      return;
    }
    var end;
    end, seqs, last := CompressChecked(src, dst, hashTable, sIdx, eIdx);
    r := Success(end);
  }

  /**
   * compressBlock past its argument checks: the main loop, then the last
   * literals when a match was found. Returns 0 when none was.
   */
  method CompressChecked(src: seq<byte>, dst: array<byte>, hashTable: array<int>, sIdx: nat, eIdx: nat)
    returns (end: nat, ghost seqs: seq<Sequence>, ghost last: seq<byte>)
    requires MfLimit < |src| < MaxInputSize && sIdx + CompressBound(|src|) <= eIdx <= dst.Length
    requires hashTable.Length == HashSize && forall i :: 0 <= i < HashSize ==> hashTable[i] == 0
    modifies dst, hashTable
    ensures end == 0 <==> !FindsMatch(src, ZeroTable, 0, FindMatchAttemptsStart)
    ensures end == 0 ==> seqs == [] && dst[..] == old(dst[..])
    ensures end != 0 ==>
              sIdx < end <= eIdx
              && AllWellFormed(seqs) && Replayable(0, seqs)
              && Written(dst[..], old(dst[..]), sIdx, end, EncodeBlock(seqs, last)) && ExpandFrom([], seqs) + last == src
              && |last| >= MfLimit
              && end - sIdx + 14 <= CompressBound(|src|)
              && seqs != [] && HasRepeat(src)
  {
    ghost var o := dst[..];
    var anchor, dpos;
    anchor, dpos, seqs := Scan(src, dst, hashTable, sIdx, eIdx);
    last := src;
    if anchor == 0 {
      WrittenNothing(dst[..], o, sIdx);
      return 0, seqs, last;
    }
    last := src[anchor..];
    assert src[..anchor] + last == src;
    EncodeBlockSplit(seqs, last);
    ghost var before := dst[..];
    end := FinishBlock(src, dst, dpos, anchor, seqs, sIdx, eIdx);
    WrittenChain(o, before, dst[..], sIdx, dpos, end, EncodeSequences(seqs), EncodeLast(last));
  }

  /**
   * compress: a fresh, zeroed hash table, then compressBlock over the window
   * `sIdx..eIdx` of `dst`. An index of 0 stands for an argument left out
   * (`sIdx || 0`, `eIdx || dst.length`). A block that was written decodes
   * back to the input.
   */
  method Compress(src: seq<byte>, dst: array<byte>, sIdx: nat, eIdx: nat) returns (r: Result<nat, Lz4Error>)
    requires eIdx <= dst.Length
    modifies dst
    ensures r == Failure(InputTooLarge) <==> |src| >= MaxInputSize
    ensures r.Failure? && r.error.OutputTooSmall? <==>
              |src| < MaxInputSize && |src| > MfLimit
              && (if eIdx == 0 then dst.Length else eIdx) - sIdx < CompressBound(|src|)
    ensures r.Success? && |src| <= MfLimit ==> r.value == 0
    ensures r.Failure? || (r.Success? && r.value == 0) ==> dst[..] == old(dst[..])
    ensures r.Success? && r.value != 0 ==>
              sIdx < r.value <= (if eIdx == 0 then dst.Length else eIdx)
              && r.value - sIdx + 14 <= CompressBound(|src|)
              && Decode(dst[sIdx..r.value]) == Some(src)
              && dst[..sIdx] == old(dst[..sIdx]) && dst[r.value..] == old(dst[r.value..])
    ensures r.Success? && r.value != 0 ==> HasRepeat(src)
    ensures r.Success? ==> (r.value == 0 <==> !FindsMatch(src, ZeroTable, 0, FindMatchAttemptsStart))
  {
    var end := if eIdx == 0 then dst.Length else eIdx;
    var hashTable := new int[HashSize];
    var i := 0;
    while i < HashSize
      invariant 0 <= i <= HashSize
      invariant forall k :: 0 <= k < i ==> hashTable[k] == 0
      invariant dst[..] == old(dst[..])
    {
      hashTable[i] := 0;
      i := i + 1;
    }
    ghost var seqs, last;
    r, seqs, last := CompressBlock(src, dst, hashTable, sIdx, end);
    if r.Success? && r.value != 0 {
      WrittenSlice(dst[..], old(dst[..]), sIdx, r.value, EncodeBlock(seqs, last));
      RoundTrip(seqs, last);
    }
  }
}
