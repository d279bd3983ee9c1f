/**
 * The LZ4 block format: a block is a series of sequences, each a token byte
 * (literal-length nibble high, match-length nibble low), the literal-length
 * extension, the literals, a 2-byte little-endian offset and the match-length
 * extension; the last sequence stops after its literals.
 *
 * This module gives the format three ways: as the abstract sequences a
 * compressor emits (Sequence, ExpandFrom), as the bytes they are written as
 * (EncodeBlock), and as a reference decoder (Decode). The round-trip lemma
 * ties them together.
 */
module Lz4Format {
  import opened Common

  const MinMatch: nat := 4
  /** A length nibble of 15 means that the length continues in extension bytes. */
  const NibbleMax: nat := 15
  /** Offsets are 16-bit: a match reaches back at most 65535 bytes. */
  const WindowSize: nat := 65536

  /** Extension bytes of a length: a run of 255s and a terminal byte below 255. */
  function LengthBytes(n: nat): (r: seq<byte>)
    ensures |r| == n / 255 + 1
    decreases n
  {
    if n >= 255 then [255] + LengthBytes(n - 255) else [n]
  }

  /** The bytes that follow a token nibble holding min(n, 15). */
  function LengthField(n: nat): seq<byte>
  {
    if n >= NibbleMax then LengthBytes(n - NibbleMax) else []
  }

  /** The token byte: literal-length nibble high, match-length nibble low. */
  function Token(literalLength: nat, matchExtra: nat): (r: byte)
  {
    Min(literalLength, NibbleMax) * 16 + Min(matchExtra, NibbleMax)
  }

  /** The token's two nibbles read back as the lengths it was built from, capped at 15. */
  lemma TokenNibbles(literalLength: nat, matchExtra: nat)
    ensures Token(literalLength, matchExtra) / 16 == Min(literalLength, NibbleMax)
    ensures Token(literalLength, matchExtra) % 16 == Min(matchExtra, NibbleMax)
  {
  }

  /** One sequence: literals copied verbatim, then `matchLength` bytes copied from `offset` back. */
  datatype Sequence = Sequence(literals: seq<byte>, offset: nat, matchLength: nat)

  predicate WellFormed(s: Sequence)
  {
    s.matchLength >= MinMatch && 0 < s.offset < WindowSize
  }

  predicate AllWellFormed(ss: seq<Sequence>)
  {
    forall i :: 0 <= i < |ss| ==> WellFormed(ss[i])
  }

  function EncodeSequence(s: Sequence): seq<byte>
    requires WellFormed(s)
  {
    [Token(|s.literals|, s.matchLength - MinMatch)] + LengthField(|s.literals|) + s.literals
    + [s.offset % 256, s.offset / 256] + LengthField(s.matchLength - MinMatch)
  }

  /** The closing sequence: literals only, no offset and no match. */
  function EncodeLast(literals: seq<byte>): seq<byte>
  {
    [Token(|literals|, 0)] + LengthField(|literals|) + literals
  }

  function EncodeSequences(ss: seq<Sequence>): seq<byte>
    requires AllWellFormed(ss)
  {
    if ss == [] then [] else EncodeSequence(ss[0]) + EncodeSequences(ss[1..])
  }

  /** A whole block: the sequences with matches, then the closing literals. */
  function EncodeBlock(ss: seq<Sequence>, last: seq<byte>): seq<byte>
    requires AllWellFormed(ss)
  {
    if ss == [] then EncodeLast(last) else EncodeSequence(ss[0]) + EncodeBlock(ss[1..], last)
  }

  lemma {:induction false} EncodeBlockSplit(ss: seq<Sequence>, last: seq<byte>)
    requires AllWellFormed(ss)
    ensures EncodeBlock(ss, last) == EncodeSequences(ss) + EncodeLast(last)
    decreases |ss|
  {
    if ss != [] {
      EncodeBlockSplit(ss[1..], last);
    }
  }

  /** Number of uncompressed bytes the sequences stand for. */
  function Covered(ss: seq<Sequence>): nat
  {
    if ss == [] then 0 else |ss[0].literals| + ss[0].matchLength + Covered(ss[1..])
  }

  // ---------------------------------------------------------------- meaning

  /** Copy `len` bytes, one at a time, from `offset` bytes back (the copy may overlap itself). */
  function CopyMatch(out: seq<byte>, offset: nat, len: nat): (r: seq<byte>)
    requires 0 < offset <= |out|
    ensures |r| == |out| + len
    ensures r[..|out|] == out
    decreases len
  {
    if len == 0 then out else CopyMatch(out + [out[|out| - offset]], offset, len - 1)
  }

  /** Replay one sequence after `out`: its literals, then its match. */
  function Apply(out: seq<byte>, s: Sequence): (r: seq<byte>)
    requires 0 < s.offset <= |out| + |s.literals|
    ensures |r| == |out| + |s.literals| + s.matchLength
  {
    CopyMatch(out + s.literals, s.offset, s.matchLength)
  }

  /** The sequences are well formed and, replayed after `len` bytes, never reach before the start. */
  predicate Replayable(len: nat, ss: seq<Sequence>)
    decreases |ss|
  {
    ss == [] ||
    (WellFormed(ss[0]) && ss[0].offset <= len + |ss[0].literals|
     && Replayable(len + |ss[0].literals| + ss[0].matchLength, ss[1..]))
  }

  function ExpandFrom(out: seq<byte>, ss: seq<Sequence>): (r: seq<byte>)
    requires Replayable(|out|, ss)
    ensures |r| == |out| + Covered(ss)
    decreases |ss|
  {
    if ss == [] then out else ExpandFrom(Apply(out, ss[0]), ss[1..])
  }

  // ---------------------------------------------------------------- building blocks front to back

  lemma AllWellFormedSnoc(ss: seq<Sequence>, s: Sequence)
    requires AllWellFormed(ss) && WellFormed(s)
    ensures AllWellFormed(ss + [s])
  {
    forall i | 0 <= i < |ss + [s]| ensures WellFormed((ss + [s])[i]) {
      if i < |ss| { assert (ss + [s])[i] == ss[i]; }
    }
  }

  lemma AllWellFormedTail(ss: seq<Sequence>)
    requires ss != [] && AllWellFormed(ss)
    ensures WellFormed(ss[0]) && AllWellFormed(ss[1..])
  {
    forall i | 0 <= i < |ss[1..]| ensures WellFormed(ss[1..][i]) {
      assert ss[1..][i] == ss[i + 1];
    }
  }

  lemma {:induction false} EncodeSequencesSnoc(ss: seq<Sequence>, s: Sequence)
    requires AllWellFormed(ss) && WellFormed(s)
    ensures AllWellFormed(ss + [s])
    ensures EncodeSequences(ss + [s]) == EncodeSequences(ss) + EncodeSequence(s)
    decreases |ss|
  {
    AllWellFormedSnoc(ss, s);
    if ss == [] {
      assert [s][1..] == [];
    } else {
      assert (ss + [s])[1..] == ss[1..] + [s];
      AllWellFormedTail(ss);
      EncodeSequencesSnoc(ss[1..], s);
      var head, mid, next := EncodeSequence(ss[0]), EncodeSequences(ss[1..]), EncodeSequence(s);
      assert head + (mid + next) == head + mid + next;
    }
  }

  lemma {:induction false} CoveredSnoc(ss: seq<Sequence>, s: Sequence)
    ensures Covered(ss + [s]) == Covered(ss) + |s.literals| + s.matchLength
    decreases |ss|
  {
    if ss == [] {
      assert [s][1..] == [];
    } else {
      assert (ss + [s])[1..] == ss[1..] + [s];
      CoveredSnoc(ss[1..], s);
    }
  }

  lemma {:induction false} ExpandSnoc(out: seq<byte>, ss: seq<Sequence>, s: Sequence)
    requires Replayable(|out|, ss)
    requires WellFormed(s) && s.offset <= |out| + Covered(ss) + |s.literals|
    ensures Replayable(|out|, ss + [s])
    ensures ExpandFrom(out, ss + [s]) == Apply(ExpandFrom(out, ss), s)
    decreases |ss|
  {
    if ss == [] {
      assert [s][1..] == [];
    } else {
      assert (ss + [s])[1..] == ss[1..] + [s];
      ExpandSnoc(Apply(out, ss[0]), ss[1..], s);
    }
  }

  /** The `len` bytes at `p` equal the bytes `offset` earlier. */
  ghost predicate RepeatsBack(src: seq<byte>, p: nat, offset: nat, len: nat)
    requires offset <= p && p + len <= |src|
  {
    forall k :: p <= k < p + len ==> src[k] == src[k - offset]
  }

  /** Replaying a match that repeats bytes of `src` after `src[..p]` gives `src[..p + len]`. */
  lemma {:induction false} CopyMatchFromSource(src: seq<byte>, p: nat, offset: nat, len: nat)
    requires 0 < offset <= p && p + len <= |src|
    requires RepeatsBack(src, p, offset, len)
    ensures CopyMatch(src[..p], offset, len) == src[..p + len]
    decreases len
  {
    if len > 0 {
      assert src[p] == src[p - offset];
      assert src[..p] + [src[..p][p - offset]] == src[..p + 1];
      CopyMatchFromSource(src, p + 1, offset, len - 1);
    }
  }

  // ---------------------------------------------------------------- size bound

  lemma LengthFieldSize(n: nat)
    ensures |LengthField(n)| <= 1 + n / 255
    ensures |LengthField(n)| <= n
  {
    if n >= NibbleMax {
      assert |LengthField(n)| == (n - NibbleMax) / 255 + 1;
    }
  }

  lemma DivAdd(a: nat, b: nat)
    ensures a / 255 + b / 255 <= (a + b) / 255
  {
    var qa, qb := a / 255, b / 255;
    assert qa * 255 + qb * 255 <= a + b;
    assert (qa + qb) * 255 <= a + b;
  }

  /** A sequence with a match of at least 4 bytes costs at most one extra byte per 255 literals. */
  lemma SequenceCost(s: Sequence)
    requires WellFormed(s)
    ensures |EncodeSequence(s)| <= |s.literals| + s.matchLength + |s.literals| / 255
  {
    LengthFieldSize(|s.literals|);
    LengthFieldSize(s.matchLength - MinMatch);
    var L := |s.literals|;
    if L >= NibbleMax {
      assert (L - NibbleMax) / 255 + 1 <= 1 + L / 255;
      if L < 270 {
        assert |LengthField(L)| == 1;
      } else {
        assert (L - NibbleMax) / 255 <= L / 255;
      }
    }
    var M := s.matchLength - MinMatch;
    if M >= NibbleMax {
      assert |LengthField(M)| == (M - NibbleMax) / 255 + 1;
      assert (M - NibbleMax) / 255 <= M - NibbleMax;
    }
  }

  lemma LastCost(literals: seq<byte>)
    ensures |EncodeLast(literals)| <= |literals| + |literals| / 255 + 2
  {
    LengthFieldSize(|literals|);
  }

  lemma {:induction false} SequencesCost(ss: seq<Sequence>)
    requires AllWellFormed(ss)
    ensures |EncodeSequences(ss)| <= Covered(ss) + Covered(ss) / 255
    decreases |ss|
  {
    if ss != [] {
      AllWellFormedTail(ss);
      SequencesCost(ss[1..]);
      SequenceCost(ss[0]);
      var L := |ss[0].literals|;
      var c := Covered(ss[1..]);
      DivAdd(L, c);
      assert (L + c) / 255 <= (L + ss[0].matchLength + c) / 255;
    }
  }

  /** Every block is at most n + n/255 + 2 bytes long, n being what it decodes to. */
  lemma BlockCost(ss: seq<Sequence>, last: seq<byte>)
    requires AllWellFormed(ss)
    ensures |EncodeBlock(ss, last)| <= (Covered(ss) + |last|) + (Covered(ss) + |last|) / 255 + 2
  {
    EncodeBlockSplit(ss, last);
    SequencesCost(ss);
    LastCost(last);
    DivAdd(Covered(ss), |last|);
  }
}
