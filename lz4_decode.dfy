/**
 * A reference decoder for the LZ4 block format, and the lemma that it
 * inverts the encoding of Lz4Format.
 */
module Lz4Decode {
  import opened Common
  import opened Lz4Format

  /** Reads a 255-terminated length extension; gives the value and the bytes after it. */
  function ReadLength(b: seq<byte>): (r: Option<(nat, seq<byte>)>)
    ensures r.Some? ==> |r.value.1| < |b|
    decreases |b|
  {
    if b == [] then None
    else if b[0] == 255 then
      match ReadLength(b[1..])
      case None => None
      case Some(p) => Some((p.0 + 255, p.1))
    else Some((b[0] as nat, b[1..]))
  }

  function ExtendLength(nibble: nat, b: seq<byte>): (r: Option<(nat, seq<byte>)>)
    ensures r.Some? ==> |r.value.1| <= |b|
  {
    if nibble < NibbleMax then Some((nibble, b))
    else
      match ReadLength(b)
      case None => None
      case Some(p) => Some((NibbleMax + p.0, p.1))
  }

  /** After a token whose literal nibble is `nibble`: the literals and the bytes after them. */
  function SplitLiterals(nibble: nat, b: seq<byte>): (r: Option<(seq<byte>, seq<byte>)>)
    ensures r.Some? ==> |r.value.1| <= |b|
  {
    match ExtendLength(nibble, b)
    case None => None
    case Some(p) => if |p.1| < p.0 then None else Some((p.1[..p.0], p.1[p.0..]))
  }

  /** The little-endian offset and the match length (at least 4) that follow the literals. */
  function ReadMatch(nibble: nat, b: seq<byte>): (r: Option<(nat, nat, seq<byte>)>)
    ensures r.Some? ==> |r.value.2| < |b| && r.value.1 >= MinMatch
  {
    if |b| < 2 then None
    else
      var offset := b[0] as nat + 256 * (b[1] as nat);
      match ExtendLength(nibble, b[2..])
      case None => None
      case Some(p) => Some((offset, p.0 + MinMatch, p.1))
  }

  /** One parsed sequence: the closing one (literals only) or one with a match. */
  datatype Step =
    | Final(literals: seq<byte>)
    | Partial(literals: seq<byte>, offset: nat, matchLength: nat, rest: seq<byte>)

  /** Parses the sequence at the head of `b`. */
  function DecodeStep(b: seq<byte>): (r: Option<Step>)
    ensures r.Some? && r.value.Partial? ==> |r.value.rest| < |b|
  {
    if b == [] then None
    else
      match SplitLiterals(b[0] / 16, b[1..])
      case None => None
      case Some(lr) =>
        if lr.1 == [] then Some(Final(lr.0))
        else
          match ReadMatch(b[0] % 16, lr.1)
          case None => None
          case Some(m) => Some(Partial(lr.0, m.0, m.1, m.2))
  }

  /**
   * Reference LZ4 block decoder: appends the decoding of `b` to `out`. A match
   * offset of 0, or one reaching before the start of the output, is an error.
   */
  function DecodeFrom(b: seq<byte>, out: seq<byte>): Option<seq<byte>>
    decreases |b|
  {
    match DecodeStep(b)
    case None => None
    case Some(Final(literals)) => Some(out + literals)
    case Some(Partial(literals, offset, len, rest)) =>
      if offset == 0 || offset > |out| + |literals| then None
      else DecodeFrom(rest, CopyMatch(out + literals, offset, len))
  }

  function Decode(block: seq<byte>): Option<seq<byte>>
  {
    DecodeFrom(block, [])
  }

  lemma {:induction false} ReadLengthBytes(n: nat, rest: seq<byte>)
    ensures ReadLength(LengthBytes(n) + rest) == Some((n, rest))
    decreases n
  {
    var b := LengthBytes(n) + rest;
    if n >= 255 {
      assert b[1..] == LengthBytes(n - 255) + rest;
      ReadLengthBytes(n - 255, rest);
    } else {
      assert b[1..] == rest;
    }
  }

  lemma ExtendLengthField(n: nat, rest: seq<byte>)
    ensures ExtendLength(Min(n, NibbleMax), LengthField(n) + rest) == Some((n, rest))
  {
    if n >= NibbleMax {
      ReadLengthBytes(n - NibbleMax, rest);
    } else {
      assert LengthField(n) + rest == rest;
    }
  }

  lemma SplitLiteralsEncoded(literals: seq<byte>, rest: seq<byte>)
    ensures SplitLiterals(Min(|literals|, NibbleMax), LengthField(|literals|) + literals + rest)
            == Some((literals, rest))
  {
    var L := |literals|;
    assert LengthField(L) + literals + rest == LengthField(L) + (literals + rest);
    ExtendLengthField(L, literals + rest);
    assert (literals + rest)[..L] == literals;
    assert (literals + rest)[L..] == rest;
  }

  lemma ReadMatchEncoded(s: Sequence, rest: seq<byte>)
    requires WellFormed(s)
    ensures ReadMatch(Min(s.matchLength - MinMatch, NibbleMax),
                      [s.offset % 256, s.offset / 256] + LengthField(s.matchLength - MinMatch) + rest)
            == Some((s.offset, s.matchLength, rest))
  {
    var M := s.matchLength - MinMatch;
    var b := [s.offset % 256, s.offset / 256] + LengthField(M) + rest;
    assert b[2..] == LengthField(M) + rest;
    assert b[0] as nat + 256 * (b[1] as nat) == s.offset;
    ExtendLengthField(M, rest);
  }

  lemma DecodeStepLast(literals: seq<byte>)
    ensures DecodeStep(EncodeLast(literals)) == Some(Final(literals))
  {
    var token := Token(|literals|, 0);
    TokenNibbles(|literals|, 0);
    var field := LengthField(|literals|);
    var b := EncodeLast(literals);
    assert b == [token] + (field + literals + []);
    assert b[0] == token && b[1..] == field + literals + [];
    SplitLiteralsEncoded(literals, []);
  }

  /** A token followed by bytes that parse as literals and a match parses as one step. */
  lemma DecodeStepToken(token: byte, body: seq<byte>, literals: seq<byte>, tail: seq<byte>,
                        offset: nat, matchLength: nat, rest: seq<byte>)
    requires SplitLiterals(token / 16, body) == Some((literals, tail))
    requires tail != []
    requires ReadMatch(token % 16, tail) == Some((offset, matchLength, rest))
    ensures DecodeStep([token] + body) == Some(Partial(literals, offset, matchLength, rest))
  {
    var b := [token] + body;
    assert b[0] == token && b[1..] == body;
  }

  lemma EncodeSequenceParts(s: Sequence, rest: seq<byte>)
    requires WellFormed(s)
    ensures EncodeSequence(s) + rest
            == [Token(|s.literals|, s.matchLength - MinMatch)]
               + (LengthField(|s.literals|) + s.literals
                  + ([s.offset % 256, s.offset / 256] + LengthField(s.matchLength - MinMatch) + rest))
  {
    Regroup([Token(|s.literals|, s.matchLength - MinMatch)], LengthField(|s.literals|), s.literals,
            [s.offset % 256, s.offset / 256], LengthField(s.matchLength - MinMatch), rest);
  }

  lemma DecodeStepSequence(s: Sequence, rest: seq<byte>)
    requires WellFormed(s) && rest != []
    ensures DecodeStep(EncodeSequence(s) + rest)
            == Some(Partial(s.literals, s.offset, s.matchLength, rest))
  {
    var M := s.matchLength - MinMatch;
    var token := Token(|s.literals|, M);
    TokenNibbles(|s.literals|, M);
    var tail := [s.offset % 256, s.offset / 256] + LengthField(M) + rest;
    EncodeSequenceParts(s, rest);
    SplitLiteralsEncoded(s.literals, tail);
    ReadMatchEncoded(s, rest);
    DecodeStepToken(token, LengthField(|s.literals|) + s.literals + tail, s.literals, tail,
                    s.offset, s.matchLength, rest);
  }
}

module Lz4RoundTrip {
  import opened Common
  import opened Lz4Format
  import opened Lz4Decode

  lemma DecodeFinal(b: seq<byte>, out: seq<byte>, literals: seq<byte>)
    requires DecodeStep(b) == Some(Final(literals))
    ensures DecodeFrom(b, out) == Some(out + literals)
  {
  }

  lemma DecodePartial(b: seq<byte>, out: seq<byte>, s: Sequence, rest: seq<byte>)
    requires DecodeStep(b) == Some(Partial(s.literals, s.offset, s.matchLength, rest))
    requires 0 < s.offset <= |out| + |s.literals|
    ensures DecodeFrom(b, out) == DecodeFrom(rest, Apply(out, s))
  {
  }

  lemma DecodeFirst(ss: seq<Sequence>, last: seq<byte>, out: seq<byte>)
    requires ss != [] && AllWellFormed(ss)
    requires 0 < ss[0].offset <= |out| + |ss[0].literals|
    ensures AllWellFormed(ss[1..])
    ensures DecodeFrom(EncodeBlock(ss, last), out)
            == DecodeFrom(EncodeBlock(ss[1..], last), Apply(out, ss[0]))
  {
    AllWellFormedTail(ss);
    var rest := EncodeBlock(ss[1..], last);
    assert rest != [] by {
      if ss[1..] == [] { assert |EncodeLast(last)| > 0; }
    }
    DecodeStepSequence(ss[0], rest);
    DecodePartial(EncodeBlock(ss, last), out, ss[0], rest);
  }

  lemma ExpandFirst(out: seq<byte>, ss: seq<Sequence>)
    requires ss != [] && Replayable(|out|, ss)
    ensures 0 < ss[0].offset <= |out| + |ss[0].literals|
    ensures Replayable(|Apply(out, ss[0])|, ss[1..])
    ensures ExpandFrom(out, ss) == ExpandFrom(Apply(out, ss[0]), ss[1..])
  {
  }

  lemma {:induction false} DecodeSequences(ss: seq<Sequence>, last: seq<byte>, out: seq<byte>)
    requires Replayable(|out|, ss)
    requires AllWellFormed(ss)
    ensures DecodeFrom(EncodeBlock(ss, last), out) == Some(ExpandFrom(out, ss) + last)
    decreases |ss|
  {
    if ss == [] {
      DecodeStepLast(last);
      DecodeFinal(EncodeBlock(ss, last), out, last);
    } else {
      ExpandFirst(out, ss);
      DecodeFirst(ss, last, out);
      DecodeSequences(ss[1..], last, Apply(out, ss[0]));
    }
  }

  lemma {:induction false} ReplayableWellFormed(len: nat, ss: seq<Sequence>)
    requires Replayable(len, ss)
    ensures AllWellFormed(ss)
    decreases |ss|
  {
    if ss != [] {
      ReplayableWellFormed(len + |ss[0].literals| + ss[0].matchLength, ss[1..]);
      forall i | 0 <= i < |ss| ensures WellFormed(ss[i]) {
        if i > 0 { assert ss[i] == ss[1..][i - 1]; }
      }
    }
  }

  /** Decoding an encoded block gives back the bytes its sequences stand for, then the last literals. */
  lemma RoundTrip(ss: seq<Sequence>, last: seq<byte>)
    requires Replayable(0, ss)
    ensures AllWellFormed(ss)
    ensures Decode(EncodeBlock(ss, last)) == Some(ExpandFrom([], ss) + last)
  {
    ReplayableWellFormed(0, ss);
    DecodeSequences(ss, last, []);
  }

}
