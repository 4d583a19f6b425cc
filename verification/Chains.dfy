/**
 * Packet buffers as chains of segments: a segment owns a fixed stretch of memory of which the
 * first `dataLen` bytes count, and the head of the chain records a total length.
 */
module Chains {

  newtype Byte = b: int | 0 <= b < 256

  datatype Segment = Segment(buf: seq<Byte>, dataLen: nat)
  datatype Chain = Chain(segs: seq<Segment>, pktLen: nat)

  function Min(a: nat, b: nat): nat {
    if a <= b then a else b
  }

  /** Every segment has room for `segSz` bytes. */
  ghost predicate Roomy(segs: seq<Segment>, segSz: nat) {
    forall j | 0 <= j < |segs| :: |segs[j].buf| == segSz && segs[j].dataLen <= segSz
  }

  /** The bytes that count, in order. */
  function Data(segs: seq<Segment>): seq<Byte>
    requires forall j | 0 <= j < |segs| :: segs[j].dataLen <= |segs[j].buf|
  {
    if segs == [] then [] else segs[0].buf[..segs[0].dataLen] + Data(segs[1..])
  }

  /** The packet: as many bytes as the head of the chain says. */
  ghost function Packet(c: Chain, segSz: nat): seq<Byte>
    requires Readable(c, segSz)
  {
    Data(c.segs)[..c.pktLen]
  }

  ghost predicate Readable(c: Chain, segSz: nat) {
    Roomy(c.segs, segSz) && c.pktLen <= |Data(c.segs)|
  }

  /** All segments at full length: what the engine makes of an output buffer before the device sees it. */
  function Full(segs: seq<Segment>): seq<Segment> {
    seq(|segs|, j requires 0 <= j < |segs| => segs[j].(dataLen := |segs[j].buf|))
  }

  function Reset(c: Chain, segSz: nat): Chain {
    Chain(Full(c.segs), segSz * |c.segs|)
  }

  /** What the device does to its output segments: bytes over the front of the data, lengths untouched. */
  function Overwrite(segs: seq<Segment>, out: seq<Byte>): seq<Segment>
    requires forall j | 0 <= j < |segs| :: segs[j].dataLen <= |segs[j].buf|
  {
    if segs == [] then []
    else
      var n := Min(|out|, segs[0].dataLen);
      [segs[0].(buf := out[..n] + segs[0].buf[n..])] + Overwrite(segs[1..], out[n..])
  }

  /** The trimming loop: data lengths for `n` bytes, full segments first; later segments keep theirs. */
  function Trim(segs: seq<Segment>, n: nat, segSz: nat): seq<Segment> {
    if segs == [] || n == 0 then segs
    else
      var m := Min(n, segSz);
      [segs[0].(dataLen := m)] + Trim(segs[1..], n - m, segSz)
  }

  /** An output buffer after its operation has come back: overwritten and, if asked, trimmed. */
  function Finished(c: Chain, out: seq<Byte>, segSz: nat, trim: bool): Chain
    requires forall j | 0 <= j < |c.segs| :: c.segs[j].dataLen <= |c.segs[j].buf|
  {
    var written := Overwrite(c.segs, out);
    if trim then Chain(Trim(written, |out|, segSz), |out|) else Chain(written, c.pktLen)
  }

  /** The layout the set-up builds for `n` bytes: all segments full but the last, none empty. */
  ghost predicate LaidOut(segs: seq<Segment>, n: nat, segSz: nat) {
    if segs == [] then n == 0
    else n > 0 && segs[0].dataLen == Min(n, segSz) && LaidOut(segs[1..], n - segs[0].dataLen, segSz)
  }

  // ----- facts about the functions -----

  lemma {:induction false} FullSize(segs: seq<Segment>, segSz: nat)
    requires Roomy(segs, segSz)
    ensures Roomy(Full(segs), segSz) && |Data(Full(segs))| == segSz * |segs|
  {
    if segs != [] {
      FullSize(segs[1..], segSz);
      assert Full(segs)[1..] == Full(segs[1..]);
      assert |Data(Full(segs))| == segSz + |Data(Full(segs[1..]))|;
      OneMore(segSz, |segs[1..]|);
    }
  }

  lemma OneMore(a: nat, n: nat)
    ensures a * (n + 1) == a + a * n
  {
  }

  lemma {:induction false} OverwriteShape(segs: seq<Segment>, out: seq<Byte>, segSz: nat)
    requires Roomy(segs, segSz)
    ensures |Overwrite(segs, out)| == |segs| && Roomy(Overwrite(segs, out), segSz)
    ensures forall j | 0 <= j < |segs| :: Overwrite(segs, out)[j].dataLen == segs[j].dataLen
    ensures |Data(Overwrite(segs, out))| == |Data(segs)|
  {
    if segs != [] {
      var n := Min(|out|, segs[0].dataLen);
      OverwriteShape(segs[1..], out[n..], segSz);
    }
  }

  lemma DataUnfolds(segs: seq<Segment>)
    requires forall j | 0 <= j < |segs| :: segs[j].dataLen <= |segs[j].buf|
    ensures Data(segs) == if segs == [] then [] else segs[0].buf[..segs[0].dataLen] + Data(segs[1..])
  {
  }

  lemma OverwriteUnfolds(segs: seq<Segment>, out: seq<Byte>, segSz: nat)
    requires Roomy(segs, segSz)
    ensures segs == [] ==> Overwrite(segs, out) == []
    ensures segs != [] ==>
              var n, head := Min(|out|, segs[0].dataLen), segs[0].buf[..segs[0].dataLen];
              var written := Overwrite(segs, out);
              && written != [] && written[1..] == Overwrite(segs[1..], out[n..]) && |written[0].buf| == segSz
              && written[0].dataLen == segs[0].dataLen && written[0].buf[..segs[0].dataLen] == out[..n] + head[n..]
  {
  }

  /** The device's bytes are what a reader finds, followed by what was there before. */
  lemma {:induction false} OverwriteReads(segs: seq<Segment>, out: seq<Byte>, segSz: nat)
    requires Roomy(segs, segSz) && |out| <= |Data(segs)|
    ensures Roomy(Overwrite(segs, out), segSz)
    ensures Data(Overwrite(segs, out)) == out + Data(segs)[|out|..]
  {
    hide Data, Overwrite;
    OverwriteShape(segs, out, segSz);
    OverwriteUnfolds(segs, out, segSz);
    DataUnfolds(segs);
    DataUnfolds(Overwrite(segs, out));
    if segs != [] {
      OverwriteReads(segs[1..], out[Min(|out|, segs[0].dataLen)..], segSz);
      Overlaid(segs[0].buf[..segs[0].dataLen], Data(segs[1..]), out);
    }
  }

  /** Bytes over the front of two stretches, piece by piece. */
  lemma Overlaid<T>(head: seq<T>, tail: seq<T>, out: seq<T>)
    requires |out| <= |head| + |tail|
    ensures var n := Min(|out|, |head|);
            (out[..n] + head[n..]) + (out[n..] + tail[|out| - n..]) == out + (head + tail)[|out|..]
  {
    if |out| <= |head| {
      assert out[|out|..] == [] && (head + tail)[|out|..] == head[|out|..] + tail;
    } else {
      assert (head + tail)[|out|..] == tail[|out| - |head|..];
      assert out[..|head|] + out[|head|..] == out;
    }
  }

  /** Writing the same bytes again changes nothing. */
  lemma {:induction false} OverwriteTwice(segs: seq<Segment>, out: seq<Byte>, segSz: nat)
    requires Roomy(segs, segSz)
    ensures Roomy(Overwrite(segs, out), segSz)
    ensures Overwrite(Overwrite(segs, out), out) == Overwrite(segs, out)
  {
    OverwriteShape(segs, out, segSz);
    if segs != [] {
      var n := Min(|out|, segs[0].dataLen);
      OverwriteTwice(segs[1..], out[n..], segSz);
      assert Overwrite(segs, out)[1..] == Overwrite(segs[1..], out[n..]);
      var buf := out[..n] + segs[0].buf[n..];
      assert out[..n] + buf[n..] == buf;
    }
  }

  /** Two stretches that agree on their first pieces and on as much of the rest as is asked for. */
  lemma PrefixesAgree<T>(a: seq<T>, a': seq<T>, b: seq<T>, b': seq<T>, n: nat)
    requires |a| <= n <= |a| + |b| && n <= |a'| + |b'| && a <= a'
    requires a == a' || |a| == n
    requires |a| + |b'| >= n ==> b[..n - |a|] == b'[..n - |a|]
    ensures (a + b)[..n] == (a' + b')[..n]
  {
    if a == a' {
      assert (a + b)[..n] == a + b[..n - |a|] && (a + b')[..n] == a + b'[..n - |a|];
    } else {
      assert (a + b)[..n] == a && (a' + b')[..n] == a'[..n];
    }
  }

  lemma TrimUnfolds(segs: seq<Segment>, n: nat, segSz: nat)
    requires segs != [] && n > 0
    ensures var m := Min(n, segSz);
            Trim(segs, n, segSz) == [segs[0].(dataLen := m)] + Trim(segs[1..], n - m, segSz)
  {
  }

  lemma {:induction false} TrimShape(segs: seq<Segment>, n: nat, segSz: nat)
    requires Roomy(segs, segSz)
    ensures |Trim(segs, n, segSz)| == |segs| && Roomy(Trim(segs, n, segSz), segSz)
  {
    if segs != [] && n > 0 {
      TrimShape(segs[1..], n - Min(n, segSz), segSz);
    }
  }

  ghost predicate AllFull(segs: seq<Segment>, segSz: nat) {
    forall j | 0 <= j < |segs| :: segs[j].dataLen == segSz
  }

  /** Trimming full segments to `n` bytes leaves exactly the first `n` bytes readable there. */
  lemma {:induction false} TrimReads(segs: seq<Segment>, n: nat, segSz: nat)
    requires Roomy(segs, segSz) && AllFull(segs, segSz) && n <= |Data(segs)|
    ensures |Trim(segs, n, segSz)| == |segs| && Roomy(Trim(segs, n, segSz), segSz)
    ensures n <= |Data(Trim(segs, n, segSz))| && Data(Trim(segs, n, segSz))[..n] == Data(segs)[..n]
  {
    TrimShape(segs, n, segSz);
    if segs != [] && n > 0 {
      hide Trim, Data;
      var m := Min(n, segSz);
      TrimUnfolds(segs, n, segSz);
      DataUnfolds(segs);
      TrimReads(segs[1..], n - m, segSz);
      var t, rest := Trim(segs, n, segSz), Trim(segs[1..], n - m, segSz);
      assert t[1..] == rest && t[0].buf == segs[0].buf && t[0].dataLen == m;
      DataUnfolds(t);
      hide Roomy, AllFull;
      PrefixesAgree(segs[0].buf[..m], segs[0].buf[..segSz], Data(rest), Data(segs[1..]), n);
    }
  }

  lemma {:induction false} LaidOutData(segs: seq<Segment>, n: nat, segSz: nat)
    requires Roomy(segs, segSz) && LaidOut(segs, n, segSz)
    ensures |Data(segs)| == n <= segSz * |segs|
  {
    if segs != [] {
      LaidOutData(segs[1..], n - segs[0].dataLen, segSz);
      OneMore(segSz, |segs[1..]|);
    }
  }

  /** The first segment of a laid-out buffer, reset, written with the buffer's own bytes and trimmed. */
  lemma HeadRestored(segs: seq<Segment>, data: seq<Byte>, n: nat, segSz: nat)
    requires segs != [] && Roomy(segs, segSz) && Roomy(Full(segs), segSz)
    requires 0 < n == |data| && segs[0].dataLen == Min(n, segSz)
             && data[..segs[0].dataLen] == segs[0].buf[..segs[0].dataLen]
    requires n <= segSz ==> segs[1..] == []
    ensures var m := segs[0].dataLen;
            Trim(Overwrite(Full(segs), data), n, segSz) ==
            [segs[0]] + Trim(Overwrite(Full(segs[1..]), data[m..]), n - m, segSz)
  {
    var m, full := segs[0].dataLen, Full(segs);
    assert full[1..] == Full(segs[1..]);
    var k := Min(|data|, segSz);
    assert k == m;
    assert data[..m] + segs[0].buf[m..] == segs[0].buf;
    var over := Overwrite(full, data);
    assert over == [Segment(segs[0].buf, segSz)] + Overwrite(full[1..], data[m..]);
    assert over[1..] == Overwrite(Full(segs[1..]), data[m..]);
  }

  /**
   * Resetting a laid-out buffer, writing its own bytes back and trimming restores it to the last
   * byte and length: memory, data lengths and, with the head, the packet length.
   */
  lemma {:induction false} LayoutRestored(segs: seq<Segment>, n: nat, segSz: nat)
    requires Roomy(segs, segSz) && LaidOut(segs, n, segSz)
    ensures Roomy(Full(segs), segSz)
    ensures Trim(Overwrite(Full(segs), Data(segs)), n, segSz) == segs
  {
    FullSize(segs, segSz);
    LaidOutData(segs, n, segSz);
    if segs != [] {
      var m, data := segs[0].dataLen, Data(segs);
      LayoutRestored(segs[1..], n - m, segSz);
      DataUnfolds(segs);
      assert data[..m] == segs[0].buf[..m] && data[m..] == Data(segs[1..]);
      hide Overwrite, Trim, Data, Full;
      HeadRestored(segs, data, n, segSz);
    }
  }

  // ----- a buffer on its way through one pass -----

  /** A reset buffer, finished with `out`, has `out` as its packet. */
  lemma FinishedReads(c: Chain, out: seq<Byte>, segSz: nat)
    requires Roomy(c.segs, segSz) && |out| <= segSz * |c.segs|
    ensures var r := Reset(c, segSz);
            && Roomy(r.segs, segSz)
            && Readable(Finished(r, out, segSz, true), segSz)
            && Packet(Finished(r, out, segSz, true), segSz) == out
            && |Finished(r, out, segSz, true).segs| == |c.segs|
  {
    var r := Reset(c, segSz);
    FullSize(c.segs, segSz);
    OverwriteShape(r.segs, out, segSz);
    OverwriteReads(r.segs, out, segSz);
    TrimReads(Overwrite(r.segs, out), |out|, segSz);
    assert (out + Data(r.segs)[|out|..])[..|out|] == out;
  }

  /** Untrimmed passes before it do not change what a trimming pass leaves behind. */
  lemma FinishedAgain(c: Chain, out: seq<Byte>, segSz: nat, trim: bool)
    requires Roomy(c.segs, segSz) && |out| <= segSz * |c.segs|
    ensures var r := Reset(c, segSz);
            && Roomy(r.segs, segSz)
            && Roomy(Finished(r, out, segSz, false).segs, segSz)
            && Finished(Reset(Finished(r, out, segSz, false), segSz), out, segSz, trim) == Finished(r, out, segSz, trim)
  {
    var r := Reset(c, segSz);
    FullSize(c.segs, segSz);
    OverwriteShape(r.segs, out, segSz);
    OverwriteTwice(r.segs, out, segSz);
    assert Full(Overwrite(r.segs, out)) == Overwrite(r.segs, out);
  }

  /** A laid-out buffer is its own finished form for its own bytes. */
  lemma FinishedRestores(c: Chain, segSz: nat)
    requires Roomy(c.segs, segSz) && LaidOut(c.segs, c.pktLen, segSz)
    ensures Readable(c, segSz) && Roomy(Reset(c, segSz).segs, segSz) && |Packet(c, segSz)| <= segSz * |c.segs|
    ensures Finished(Reset(c, segSz), Packet(c, segSz), segSz, true) == c
  {
    LaidOutData(c.segs, c.pktLen, segSz);
    LayoutRestored(c.segs, c.pktLen, segSz);
    assert Packet(c, segSz) == Data(c.segs);
    FullSize(c.segs, segSz);
  }
}
