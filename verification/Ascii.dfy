/** The two line-end conversions of ascii.c, for ASCII type as section 3.1.1.1 of RFC 959 has it. */
module Ascii {
  import opened Base

  const CR: byte := 13
  const LF: byte := 10

  // ---------------------------------------------------------------------------
  // Whole-stream meaning

  /** Upload: drop every CR that stands directly before an LF. */
  function ToBin(s: seq<byte>): (r: seq<byte>) {
    if s == [] then [] else ToBinHead(s) + ToBin(s[1..])
  }

  function ToBinHead(s: seq<byte>): seq<byte>
    requires s != []
  {
    if s[0] == CR && |s| > 1 && s[1] == LF then [] else [s[0]]
  }

  /** Download: put a CR before every LF that has none. `prev` says a CR came just before. */
  function ToAscii(prev: bool, s: seq<byte>): (r: seq<byte>)
    ensures |s| <= |r| <= 2 * |s|
    decreases |s|
  {
    if s == [] then []
    else ToAsciiHead(prev, s[0]) + ToAscii(s[0] == CR, s[1..])
  }

  function ToAsciiHead(prev: bool, c: byte): seq<byte> {
    if c == LF && !prev then [CR, LF] else [c]
  }

  predicate EndsCr(s: seq<byte>) {
    s != [] && s[|s| - 1] == CR
  }

  /** Whether a CR is the last byte, when `prev` tells what came before. */
  function LastCr(prev: bool, s: seq<byte>): bool {
    if s == [] then prev else EndsCr(s)
  }

  /** The CR that is kept back between two chunks. */
  function Held(b: bool): seq<byte> {
    if b then [CR] else []
  }

  /** Upload of an unfinished stream: a CR at the very end is kept back. */
  function ToBinOpen(s: seq<byte>): seq<byte> {
    ToBin(if EndsCr(s) then s[..|s| - 1] else s)
  }

  // ---------------------------------------------------------------------------
  // Chunks compose

  lemma Assoc(a: seq<byte>, b: seq<byte>, c: seq<byte>)
    ensures a + (b + c) == (a + b) + c
  {
  }

  lemma TailOfConcat(s: seq<byte>, t: seq<byte>)
    requires s != []
    ensures (s + t)[1..] == s[1..] + t
  {
  }

  lemma {:induction false} ToBinConcat(s: seq<byte>, t: seq<byte>)
    requires !(EndsCr(s) && t != [] && t[0] == LF)
    ensures ToBin(s + t) == ToBin(s) + ToBin(t)
  {
    if s == [] {
      assert s + t == t;
    } else {
      TailOfConcat(s, t);
      assert |s| > 1 ==> s[1..][|s| - 2] == s[|s| - 1];
      assert |s| > 1 ==> (s + t)[1] == s[1];
      ToBinConcat(s[1..], t);
      var h := ToBinHead(s);
      assert ToBinHead(s + t) == h;
      Assoc(h, ToBin(s[1..]), ToBin(t));
    }
  }

  /** Converting what is there and keeping a last CR back loses nothing, whatever comes next. */
  lemma ToBinChunk(s: seq<byte>, t: seq<byte>)
    ensures ToBin(s + t) == ToBinOpen(s) + ToBin(Held(EndsCr(s)) + t)
  {
    if EndsCr(s) {
      var u := s[..|s| - 1];
      assert s + t == u + ([CR] + t);
      ToBinConcat(u, [CR] + t);
    } else {
      ToBinConcat(s, t);
      assert [] + t == t;
    }
  }

  lemma {:induction false} ToAsciiChunk(prev: bool, s: seq<byte>, t: seq<byte>)
    ensures ToAscii(prev, s + t) == ToAscii(prev, s) + ToAscii(LastCr(prev, s), t)
    decreases |s|
  {
    if s == [] {
      assert s + t == t;
    } else {
      TailOfConcat(s, t);
      ToAsciiChunk(s[0] == CR, s[1..], t);
      var h, u := ToAsciiHead(prev, s[0]), ToAscii(s[0] == CR, s[1..]);
      var v := ToAscii(LastCr(prev, s), t);
      assert LastCr(s[0] == CR, s[1..]) == LastCr(prev, s);
      Assoc(h, u, v);
    }
  }

  // ---------------------------------------------------------------------------
  // Laws

  ghost predicate HasCrLf(s: seq<byte>) {
    exists i :: 0 <= i < |s| - 1 && s[i] == CR && s[i + 1] == LF
  }

  /** Every LF has a CR before it. */
  ghost predicate Network(prev: bool, s: seq<byte>) {
    forall i {:trigger s[i]} :: 0 <= i < |s| && s[i] == LF ==> if i == 0 then prev else s[i - 1] == CR
  }

  lemma NetworkCons(prev: bool, c: byte, t: seq<byte>)
    ensures Network(prev, [c] + t) <==> (c == LF ==> prev) && Network(c == CR, t)
  {
    if Network(prev, [c] + t) {
      NetworkTail(prev, c, t);
    }
    if (c == LF ==> prev) && Network(c == CR, t) {
      NetworkHead(prev, c, t);
    }
  }

  lemma NetworkTail(prev: bool, c: byte, t: seq<byte>)
    requires Network(prev, [c] + t)
    ensures (c == LF ==> prev) && Network(c == CR, t)
  {
    var s := [c] + t;
    assert s[0] == c;
    forall i | 0 <= i < |t| && t[i] == LF ensures if i == 0 then c == CR else t[i - 1] == CR {
      assert s[i + 1] == t[i];
      assert s[i] == CR;
      assert i > 0 ==> s[i] == t[i - 1];
    }
  }

  lemma NetworkHead(prev: bool, c: byte, t: seq<byte>)
    requires (c == LF ==> prev) && Network(c == CR, t)
    ensures Network(prev, [c] + t)
  {
    var s := [c] + t;
    forall i | 0 <= i < |s| && s[i] == LF ensures if i == 0 then prev else s[i - 1] == CR {
      if i > 0 {
        assert s[i] == t[i - 1];
        assert i > 1 ==> s[i - 1] == t[i - 2];
      }
    }
  }

  /** A download is in network form. */
  lemma {:induction false} ToAsciiIsNetwork(prev: bool, s: seq<byte>)
    ensures Network(prev, ToAscii(prev, s))
    decreases |s|
  {
    if s != [] {
      var t := ToAscii(s[0] == CR, s[1..]);
      ToAsciiIsNetwork(s[0] == CR, s[1..]);
      NetworkCons(prev, s[0], t);
      if s[0] == LF && !prev {
        NetworkCons(true, LF, t);
        NetworkCons(prev, CR, [LF] + t);
        assert [CR, LF] + t == [CR] + ([LF] + t);
      }
    }
  }

  /** A text already in network form is left alone. */
  lemma {:induction false} ToAsciiFixed(prev: bool, s: seq<byte>)
    requires Network(prev, s)
    ensures ToAscii(prev, s) == s
    decreases |s|
  {
    if s != [] {
      assert [s[0]] + s[1..] == s;
      NetworkCons(prev, s[0], s[1..]);
      ToAsciiFixed(s[0] == CR, s[1..]);
    }
  }

  /** Download conversion is idempotent. */
  lemma ToAsciiIdempotent(s: seq<byte>)
    ensures ToAscii(false, ToAscii(false, s)) == ToAscii(false, s)
  {
    ToAsciiIsNetwork(false, s);
    ToAsciiFixed(false, ToAscii(false, s));
  }

  /** Upload after download is upload alone. */
  lemma {:induction false} ToBinToAscii(prev: bool, s: seq<byte>)
    ensures ToBin(ToAscii(prev, s)) == ToBin(s)
    decreases |s|
  {
    if s != [] {
      var t := ToAscii(s[0] == CR, s[1..]);
      ToBinToAscii(s[0] == CR, s[1..]);
      ToAsciiFirst(s[0] == CR, s[1..]);
      if s[0] == LF && !prev {
        assert [CR, LF] + t == [CR] + ([LF] + t);
        assert ([CR] + ([LF] + t))[1..] == [LF] + t && ([LF] + t)[1..] == t;
      } else {
        assert ([s[0]] + t)[1..] == t;
      }
    }
  }

  lemma ToAsciiFirst(prev: bool, s: seq<byte>)
    ensures s == [] <==> ToAscii(prev, s) == []
    ensures s != [] && prev ==> ToAscii(prev, s)[0] == s[0]
  {
  }

  /** Upload conversion changes nothing exactly when there is no CR LF; otherwise it shortens. */
  lemma {:induction false} ToBinIdentity(s: seq<byte>)
    ensures |ToBin(s)| <= |s|
    ensures ToBin(s) == s <==> !HasCrLf(s)
    ensures HasCrLf(s) ==> |ToBin(s)| < |s|
  {
    if s != [] {
      ToBinIdentity(s[1..]);
      assert [s[0]] + s[1..] == s;
      if i :| 0 <= i < |s| - 1 && s[i] == CR && s[i + 1] == LF {
        if i > 0 {
          assert s[1..][i - 1] == CR && s[1..][i] == LF;
        }
      }
      if HasCrLf(s[1..]) {
        var i :| 0 <= i < |s[1..]| - 1 && s[1..][i] == CR && s[1..][i + 1] == LF;
        assert s[i + 1] == CR && s[i + 2] == LF;
      }
    }
  }

  /** A CR LF anywhere is stored as LF, and has no effect on its surroundings. */
  lemma ToBinCrLf(a: seq<byte>, b: seq<byte>)
    ensures ToBin(a + ([CR, LF] + b)) == ToBin(a) + ([LF] + ToBin(b))
  {
    var t := [CR, LF] + b;
    ToBinConcat(a, t);
    assert t[1..] == [LF] + b && t[1..][1..] == b;
  }

  /** A download followed by an upload gives the file back exactly when it has no CR LF of its own. */
  lemma RoundTripExact(s: seq<byte>)
    ensures ToBin(ToAscii(false, s)) == s <==> !HasCrLf(s)
  {
    ToBinToAscii(false, s);
    ToBinIdentity(s);
  }

  // ---------------------------------------------------------------------------
  // The code

  /** What conversion leaves of the byte at `i`: nothing for a CR before an LF or at the very end. */
  function Kept(s: seq<byte>, i: nat): seq<byte>
    requires i < |s|
  {
    if s[i] == CR && (i == |s| - 1 || s[i + 1] == LF) then [] else [s[i]]
  }

  lemma ToBinOpenStep(s: seq<byte>)
    requires s != []
    ensures ToBinOpen(s) == Kept(s, 0) + ToBinOpen(s[1..])
  {
    if |s| > 1 {
      assert s[1..][|s| - 2] == s[|s| - 1];
      assert EndsCr(s) ==> s[1..][..|s| - 2] == s[..|s| - 1][1..];
    }
  }

  lemma KeptStep(s: seq<byte>, done: seq<byte>, i: nat)
    requires i < |s| && ToBinOpen(s) == done + ToBinOpen(s[i..])
    ensures ToBinOpen(s) == (done + Kept(s, i)) + ToBinOpen(s[i + 1..])
  {
    ToBinOpenStep(s[i..]);
    assert s[i..][1..] == s[i + 1..];
    assert done + (Kept(s, i) + ToBinOpen(s[i + 1..])) == (done + Kept(s, i)) + ToBinOpen(s[i + 1..]);
  }

  /** What one call writes: a chunk after a kept-back CR, or that CR alone at the end of the data. */
  function ChunkToBin(prevCr: bool, s: seq<byte>): seq<byte> {
    if s == [] then Held(prevCr) else ToBinOpen(Held(prevCr) + s)
  }

  lemma ChunkToBinHead(prevCr: bool, s: seq<byte>)
    ensures ChunkToBin(prevCr, s) == (if prevCr && (s == [] || s[0] != LF) then [CR] else []) + ToBinOpen(s)
  {
    if prevCr {
      ToBinOpenStep([CR] + s);
      assert ([CR] + s)[1..] == s;
    } else {
      assert [] + s == s;
    }
  }

  /** Store one byte at the end of what has been written so far. */
  method Put(a: array<byte>, from: nat, n: nat, c: byte)
    requires from <= n < a.Length
    modifies a
    ensures a[from..n + 1] == old(a[from..n]) + [c]
    ensures forall i :: 0 <= i < from || n < i < a.Length ==> a[i] == old(a[i])
  {
    a[n] := c;
  }

  /** One turn of the copying loop: keep the byte, hold back a last CR, or drop a CR before LF. */
  method StripByte(buf: array<byte>, inLen: nat, index: nat, out: nat, ghost src: seq<byte>)
    returns (out': nat, held: bool)
    requires inLen + 1 <= buf.Length && |src| == inLen && index < inLen && 1 <= out <= index + 1
    requires forall i :: index < i <= inLen ==> buf[i] == src[i - 1]
    modifies buf
    ensures out <= out' <= index + 2 && buf[0] == old(buf[0])
    ensures forall i :: index + 1 < i <= inLen ==> buf[i] == src[i - 1]
    ensures buf[1..out'] == old(buf[1..out]) + Kept(src, index)
    ensures held == (index + 1 == inLen && EndsCr(src))
  {
    var c := buf[index + 1];
    out', held := out, false;
    if c != CR {
      Put(buf, 1, out, c);
      out' := out + 1;
    } else if index == inLen - 1 {
      held := true;
    } else if buf[index + 2] != LF {
      Put(buf, 1, out, c);
      out' := out + 1;
    }
  }

  /** The copying loop of the upload converter. The write position never passes the read position. */
  method StripInPlace(buf: array<byte>, inLen: nat) returns (out: nat, lastWasCr: bool)
    requires inLen + 1 <= buf.Length
    modifies buf
    ensures 1 <= out <= inLen + 1 && buf[0] == old(buf[0])
    ensures lastWasCr == EndsCr(old(buf[1..inLen + 1]))
    ensures buf[1..out] == ToBinOpen(old(buf[1..inLen + 1]))
  {
    ghost var src := buf[1..inLen + 1];
    var index := 0;
    out, lastWasCr := 1, false;
    ghost var done: seq<byte> := [];
    assert src[0..] == src;
    while index < inLen
      invariant 0 <= index <= inLen && 1 <= out <= index + 1
      invariant buf[0] == old(buf[0])
      invariant forall i :: index < i <= inLen ==> buf[i] == src[i - 1]
      invariant done == buf[1..out]
      invariant ToBinOpen(src) == done + ToBinOpen(src[index..])
      invariant lastWasCr == (index == inLen && EndsCr(src))
    {
      KeptStep(src, done, index);
      done := done + Kept(src, index);
      out, lastWasCr := StripByte(buf, inLen, index, out, src);
      index := index + 1;
    }
    assert src[inLen..] == [];
  }

  /** `vsf_ascii_ascii_to_bin`: convert the `inLen` bytes at `buf[1..]` in place. The result is the
      `stored` bytes at `buf[start..]`; slot 0 is there for a CR kept back from the chunk before. */
  method AsciiToBin(buf: array<byte>, inLen: nat, prevCr: bool) returns (start: nat, stored: nat, lastWasCr: bool)
    requires inLen + 1 <= buf.Length
    modifies buf
    ensures start <= 1 && start + stored <= inLen + 1
    ensures lastWasCr == EndsCr(old(buf[1..inLen + 1]))
    ensures buf[start..start + stored] == ChunkToBin(prevCr, old(buf[1..inLen + 1]))
  {
    ghost var src := buf[1..inLen + 1];
    ChunkToBinHead(prevCr, src);
    start := 1;
    if prevCr && (inLen == 0 || buf[1] != LF) {
      buf[0] := CR;
      start := 0;
      assert buf[1..inLen + 1] == src;
    }
    var out;
    out, lastWasCr := StripInPlace(buf, inLen);
    stored := out - start;
    assert buf[start..out] == (if start == 0 then [CR] else []) + buf[1..out];
  }

  lemma ToAsciiNext(prev: bool, s: seq<byte>, i: nat)
    requires i < |s|
    ensures LastCr(prev, s[..i + 1]) == (s[i] == CR)
    ensures ToAscii(prev, s[..i + 1]) ==
      ToAscii(prev, s[..i]) + ToAsciiHead(LastCr(prev, s[..i]), s[i])
  {
    ToAsciiChunk(prev, s[..i], [s[i]]);
    assert s[..i + 1] == s[..i] + [s[i]];
    assert [s[i]][1..] == [];
  }

  /** Store one byte, with a CR before an LF that needs one. */
  method PutAscii(dst: array<byte>, n: nat, lastIsCr: bool, c: byte) returns (n': nat)
    requires n + 2 <= dst.Length
    modifies dst
    ensures n' <= n + 2 && dst[0..n'] == old(dst[0..n]) + ToAsciiHead(lastIsCr, c)
  {
    n' := n;
    if c == LF && !lastIsCr {
      Put(dst, 0, n', CR);
      n' := n' + 1;
    }
    Put(dst, 0, n', c);
    n' := n' + 1;
  }

  /** `vsf_ascii_bin_to_ascii`: convert the bytes of `src` into `dst`, which is large enough when it
      has twice the room. */
  method BinToAscii(src: seq<byte>, dst: array<byte>, prevCr: bool) returns (stored: nat, lastWasCr: bool)
    requires 2 * |src| <= dst.Length
    modifies dst
    ensures stored <= 2 * |src|
    ensures dst[..stored] == ToAscii(prevCr, src)
    ensures lastWasCr == LastCr(prevCr, src)
  {
    var index := 0;
    stored := 0;
    var lastIsCr := prevCr;
    lastWasCr := prevCr;
    ghost var done: seq<byte> := [];
    assert src[..0] == [];
    while index < |src|
      invariant 0 <= index <= |src| && stored <= 2 * index
      invariant lastIsCr == lastWasCr == LastCr(prevCr, src[..index])
      invariant done == ToAscii(prevCr, src[..index])
      invariant dst[0..stored] == done
    {
      var c := src[index];
      ToAsciiNext(prevCr, src, index);
      done := done + ToAsciiHead(lastIsCr, c);
      stored := PutAscii(dst, stored, lastIsCr, c);
      index := index + 1;
      lastIsCr := c == CR;
      lastWasCr := c == CR;
    }
    assert src[..|src|] == src && dst[..stored] == dst[0..stored];
  }
}
