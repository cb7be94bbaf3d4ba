/** The two file transfer loops of ftpdataio.c, over every way the network, the disk and the object
    store can split or fail the work. */
module Transfer {
  import opened Base
  import opened Ascii

  /** VSFTP_COS_DOWNLOAD_BUFSIZE */
  const COS_DOWNLOAD_BUFSIZE: nat := 67108864

  /** `get_chunk_size`: what one read or write handles at a time. */
  function ChunkSize(tunable: nat): (r: nat)
    ensures 4096 <= tunable <= DATA_BUFSIZE ==> r == tunable
    ensures 0 < tunable < 4096 ==> r == 4096
    ensures tunable == 0 || tunable > DATA_BUFSIZE ==> r == DATA_BUFSIZE
  {
    if 0 < tunable < DATA_BUFSIZE then (if tunable < 4096 then 4096 else tunable) else DATA_BUFSIZE
  }

  /** `get_cos_download_chunksize`: what one download fetches. */
  function DownloadSize(tunable: nat): (r: nat)
    ensures 65536 <= tunable <= COS_DOWNLOAD_BUFSIZE ==> r == tunable
    ensures 0 < tunable < 65536 ==> r == 65536
    ensures tunable == 0 || tunable > COS_DOWNLOAD_BUFSIZE ==> r == COS_DOWNLOAD_BUFSIZE
  {
    if 0 < tunable < COS_DOWNLOAD_BUFSIZE then (if tunable < 65536 then 65536 else tunable) else COS_DOWNLOAD_BUFSIZE
  }

  /** Anything bytes are appended to: the uploaded file, or the data connection. */
  class Sink {
    var data: seq<byte>
  }

  function Min(a: int, b: int): (r: int)
    ensures r <= a && r <= b && r in {a, b}
  {
    if a < b then a else b
  }

  /** What a write loop achieves: it puts out `n` bytes, and stops short of the rest or breaks off with
      an error. */
  datatype Write = Took(n: nat) | Broke(n: nat)

  /** What gets out of `out`. */
  function Part(out: seq<byte>, w: Write): seq<byte> {
    out[..Min(w.n, |out|)]
  }

  predicate Complete(out: seq<byte>, w: Write) {
    w.Took? && w.n >= |out|
  }

  lemma PartOfAll(out: seq<byte>, w: Write)
    ensures Complete(out, w) ==> Part(out, w) == out
    ensures Part(out, w) <= out
  {
  }

  // ---------------------------------------------------------------------------
  // Upload

  /** What successive reads from the data connection return; after the last one, end of data. */
  datatype Read = Data(bytes: seq<byte>) | ReadError

  predicate Arrived(arrivals: seq<Read>) {
    forall i :: 0 <= i < |arrivals| ==> arrivals[i].Data?
  }

  function Received(arrivals: seq<Read>): seq<byte>
    requires Arrived(arrivals)
  {
    if arrivals == [] then [] else Received(arrivals[..|arrivals| - 1]) + arrivals[|arrivals| - 1].bytes
  }

  /** The guard on the size of an upload, as the code evaluates it: a truth value is compared. */
  predicate OverLimit(tunableKiB: nat, transferred: nat, haveRecvLen: nat) {
    var max := tunableKiB * 1024;
    (if max > 0 && transferred + haveRecvLen != 0 then 1 else 0) > max
  }

  /** The guard never fires, whatever the limit. */
  lemma LimitNeverFires(tunableKiB: nat, transferred: nat, haveRecvLen: nat)
    ensures !OverLimit(tunableKiB, transferred, haveRecvLen)
  {
    assert tunableKiB > 0 ==> tunableKiB * 1024 >= 1024;
  }

  /** What the file holds while data may still come. */
  function OpenUpload(isAscii: bool, s: seq<byte>): seq<byte> {
    if isAscii then ToBinOpen(s) else s
  }

  /** What the file holds in the end. */
  function Uploaded(isAscii: bool, s: seq<byte>): seq<byte> {
    if isAscii then ToBin(s) else s
  }

  /** What an upload is for: in ASCII mode the stored file is what was received with each CR LF as LF; while
      data may still come, all of that but a CR at the very end. */
  lemma UploadMeaning(isAscii: bool, s: seq<byte>)
    ensures Uploaded(isAscii, s) == if isAscii then ToBin(s) else s
    ensures !isAscii ==> OpenUpload(isAscii, s) == s
    ensures isAscii ==> OpenUpload(isAscii, s) + (if EndsCr(s) then [CR] else []) == ToBin(s)
  {
    if isAscii {
      FlushLastCr(s);
    }
  }

  lemma OpenMeaning(before: seq<byte>, isAscii: bool, s: seq<byte>)
    ensures !isAscii ==> before + OpenUpload(isAscii, s) == before + s
    ensures isAscii ==> before + OpenUpload(isAscii, s) + (if EndsCr(s) then [CR] else []) == before + ToBin(s)
  {
    UploadMeaning(isAscii, s);
    Assoc(before, OpenUpload(isAscii, s), if EndsCr(s) then [CR] else []);
  }

  /** What is written for one read. */
  function ChunkOut(isAscii: bool, prevCr: bool, chunk: seq<byte>): seq<byte> {
    if isAscii then ChunkToBin(prevCr, chunk) else chunk
  }

  lemma DropLast(s: seq<byte>, chunk: seq<byte>)
    requires chunk != []
    ensures (s + chunk)[..|s + chunk| - 1] == s + chunk[..|chunk| - 1]
  {
  }

  lemma OpenChunk(s: seq<byte>, chunk: seq<byte>)
    requires chunk != []
    ensures ToBinOpen(s + chunk) == ToBinOpen(s) + ChunkToBin(EndsCr(s), chunk)
  {
    var n := |chunk| - 1;
    var h := Held(EndsCr(s));
    assert (s + chunk)[|s| + n] == chunk[n] == (h + chunk)[|h| + n];
    if EndsCr(chunk) {
      ToBinChunk(s, chunk[..n]);
      DropLast(s, chunk);
      DropLast(h, chunk);
    } else {
      ToBinChunk(s, chunk);
    }
  }

  /** Appending one converted read keeps the file in step with what has been received. */
  lemma UploadStep(before: seq<byte>, isAscii: bool, s: seq<byte>, chunk: seq<byte>)
    requires chunk != []
    ensures before + OpenUpload(isAscii, s) + ChunkOut(isAscii, isAscii && EndsCr(s), chunk)
         == before + OpenUpload(isAscii, s + chunk)
    ensures EndsCr(s + chunk) == EndsCr(chunk)
  {
    if isAscii {
      OpenChunk(s, chunk);
    }
    Assoc(before, OpenUpload(isAscii, s), ChunkOut(isAscii, isAscii && EndsCr(s), chunk));
  }

  /** At the end of the data a CR that was kept back is written too. */
  lemma UploadEnd(before: seq<byte>, isAscii: bool, s: seq<byte>)
    ensures before + OpenUpload(isAscii, s) + ChunkOut(isAscii, isAscii && EndsCr(s), [])
         == before + Uploaded(isAscii, s)
    ensures !(isAscii && EndsCr(s)) ==> OpenUpload(isAscii, s) == Uploaded(isAscii, s)
  {
    if isAscii {
      FlushLastCr(s);
    }
    Assoc(before, OpenUpload(isAscii, s), ChunkOut(isAscii, isAscii && EndsCr(s), []));
  }

  lemma FlushLastCr(s: seq<byte>)
    ensures ToBin(s) == ToBinOpen(s) + Held(EndsCr(s))
  {
    ToBinChunk(s, []);
    assert s + [] == s && Held(EndsCr(s)) + [] == Held(EndsCr(s));
    assert ToBin([CR]) == [CR] by { assert [CR][1..] == []; }
  }

  lemma ReceivedNext(arrivals: seq<Read>, k: nat)
    requires k < |arrivals| && Arrived(arrivals[..k]) && arrivals[k].Data?
    ensures Arrived(arrivals[..k + 1])
    ensures Received(arrivals[..k + 1]) == Received(arrivals[..k]) + arrivals[k].bytes
  {
    assert arrivals[..k + 1][..k] == arrivals[..k];
  }

  /** One read placed in the receive buffer after slot 0, converted if need be, and written out. */
  method StoreChunk(file: Sink, buf: array<byte>, chunk: seq<byte>, isAscii: bool, prevCr: bool, w: Write)
    returns (ok: bool, lastWasCr: bool)
    requires |chunk| + 1 <= buf.Length && (prevCr ==> isAscii)
    modifies file, buf
    ensures ok == Complete(ChunkOut(isAscii, prevCr, chunk), w)
    ensures file.data == old(file.data) + Part(ChunkOut(isAscii, prevCr, chunk), w)
    ensures lastWasCr == (isAscii && EndsCr(chunk))
  {
    var out;
    out, lastWasCr := Convert(buf, chunk, isAscii, prevCr);
    file.data := file.data + Part(out, w);
    ok := Complete(out, w);
  }

  /** A read arrives in the receive buffer after slot 0. */
  method Receive(buf: array<byte>, chunk: seq<byte>)
    requires |chunk| + 1 <= buf.Length
    modifies buf
    ensures buf[1..|chunk| + 1] == chunk
  {
    forall i | 0 <= i < |chunk| { buf[i + 1] := chunk[i]; }
  }

  /** And is converted there if need be. */
  method Convert(buf: array<byte>, chunk: seq<byte>, isAscii: bool, prevCr: bool)
    returns (out: seq<byte>, lastWasCr: bool)
    requires |chunk| + 1 <= buf.Length && (prevCr ==> isAscii)
    modifies buf
    ensures out == ChunkOut(isAscii, prevCr, chunk) && lastWasCr == (isAscii && EndsCr(chunk))
  {
    Receive(buf, chunk);
    var start, num := 1, |chunk|;
    lastWasCr := prevCr;
    if isAscii {
      start, num, lastWasCr := AsciiToBin(buf, num, prevCr);
    }
    out := buf[start..start + num];
  }

  /** The write for read `j`, or the flush after the last one, failed: the file holds the conversion of
      what came before and the part of that write that got out. */
  ghost predicate StoppedAt(before: seq<byte>, now: seq<byte>, isAscii: bool, arrivals: seq<Read>, j: nat, w: Write) {
    && j <= |arrivals| && Arrived(arrivals[..j]) && (j < |arrivals| ==> arrivals[j].Data?)
    && var s := Received(arrivals[..j]);
      var out := ChunkOut(isAscii, isAscii && EndsCr(s), if j < |arrivals| then arrivals[j].bytes else []);
      !Complete(out, w) && now == before + OpenUpload(isAscii, s) + Part(out, w)
  }

  /** `do_file_recv`. For every split of the data into reads: on success the file has grown by the
      whole-stream conversion of everything received, a final lone CR included; when the network
      fails, by the conversion of what came before, with a last CR kept back; when the disk does, by
      the conversion of what was stored and a part of the next write. After the flush of a last CR the
      source reads once more, and `lastReadFails` says how that ends. */
  method FileRecv(file: Sink, arrivals: seq<Read>, lastReadFails: bool, tunableChunk: nat, isAscii: bool,
                  limitKiB: nat, haveRecvLen: nat, disk: nat -> Write)
    returns (retval: int, transferred: nat, ghost k: nat, ghost stored: nat)
    requires forall i :: 0 <= i < |arrivals| && arrivals[i].Data? ==> 0 < |arrivals[i].bytes| <= ChunkSize(tunableChunk)
    modifies file
    ensures retval in {0, -1, -2}
    ensures k <= |arrivals| && Arrived(arrivals[..k])
    ensures transferred == |Received(arrivals[..k])|
    ensures retval == 0 ==> k == |arrivals|
    ensures retval == 0 ==>
      file.data == old(file.data) + if isAscii then ToBin(Received(arrivals[..k])) else Received(arrivals[..k])
    ensures retval == -2 && k < |arrivals| ==> arrivals[k].ReadError?
    ensures retval == -2 && k < |arrivals| && !isAscii ==> file.data == old(file.data) + Received(arrivals[..k])
    ensures retval == -2 && k < |arrivals| && isAscii ==>
      var s := Received(arrivals[..k]);
      file.data + (if EndsCr(s) then [CR] else []) == old(file.data) + ToBin(s)
    ensures retval == -2 && k == |arrivals| ==> lastReadFails && isAscii && EndsCr(Received(arrivals[..k]))
    ensures retval == -2 && k == |arrivals| ==> file.data == old(file.data) + ToBin(Received(arrivals[..k]))
    ensures retval == -1 ==> StoppedAt(old(file.data), file.data, isAscii, arrivals, stored, disk(stored))
  {
    var buf := new byte[DATA_BUFSIZE + 1];
    ghost var before, sofar := file.data, [];
    var prevCr := false;
    var next: nat := 0;
    k, transferred, stored := 0, 0, 0;
    assert before + OpenUpload(isAscii, sofar) == before;
    while next < |arrivals|
      invariant next == k == stored <= |arrivals| && Arrived(arrivals[..k])
      invariant sofar == Received(arrivals[..k]) && transferred == |sofar|
      invariant prevCr == (isAscii && EndsCr(sofar))
      invariant file.data == before + OpenUpload(isAscii, sofar)
    {
      if arrivals[next].ReadError? {
        OpenMeaning(before, isAscii, sofar);
        return -2, transferred, k, stored;
      }
      var chunk := arrivals[next].bytes;
      ReceivedNext(arrivals, k);
      UploadStep(before, isAscii, sofar, chunk);
      transferred := transferred + |chunk|;
      LimitNeverFires(limitKiB, transferred, haveRecvLen);
      if OverLimit(limitKiB, transferred, haveRecvLen) {
        return -3, transferred, k, stored;
      }
      PartOfAll(ChunkOut(isAscii, prevCr, chunk), disk(next));
      var ok;
      ok, prevCr := StoreChunk(file, buf, chunk, isAscii, prevCr, disk(next));
      k := k + 1;
      if !ok {
        return -1, transferred, k, stored;
      }
      next, sofar, stored := next + 1, sofar + chunk, stored + 1;
    }
    // from here on every read reports the end of the data, or fails
    UploadEnd(before, isAscii, sofar);
    if prevCr {
      LimitNeverFires(limitKiB, transferred, haveRecvLen);
      if OverLimit(limitKiB, transferred, haveRecvLen) {
        return -3, transferred, k, stored;
      }
      PartOfAll(ChunkOut(isAscii, prevCr, []), disk(next));
      var ok;
      ok, prevCr := StoreChunk(file, buf, [], isAscii, prevCr, disk(next));
      if !ok {
        return -1, transferred, k, stored;
      }
      if lastReadFails {
        return -2, transferred, k, stored;
      }
    }
    retval := 0;
  }

  // ---------------------------------------------------------------------------
  // Download

  /** The rest of the file from the restart offset on, which may lie beyond the end. */
  function From(file: seq<byte>, restart: nat): seq<byte> {
    if restart < |file| then file[restart..] else []
  }

  lemma FromSplit(file: seq<byte>, offset: nat, n: nat)
    requires offset + n <= |file|
    ensures From(file, offset) == file[offset..offset + n] + From(file, offset + n)
  {
  }

  /** The last of `calls` calls to the store delivered nothing. */
  predicate EmptyAnswer(store: nat -> int, calls: nat) {
    calls > 0 && store(calls - 1) == 0
  }

  /** The last two of `calls` calls to the store failed. */
  predicate FailedTwice(store: nat -> int, calls: nat) {
    calls > 1 && store(calls - 2) < 0 && store(calls - 1) < 0
  }

  /** `cos_download_file`: clamp the length to the end of the file and try at most twice. `store`
      gives, call by call, how much the object store would deliver; negative means failure. */
  method CosDownload(file: seq<byte>, bufLen: nat, offset: nat, store: nat -> int, call0: nat)
    returns (recvlen: int, data: seq<byte>, call: nat)
    requires offset < |file| && 0 < bufLen
    ensures recvlen <= bufLen
    ensures |data| == if recvlen < 0 then 0 else recvlen
    ensures From(file, offset) == data + From(file, offset + |data|)
    ensures call == call0 + if store(call0) < 0 then 2 else 1
    ensures recvlen < 0 ==> FailedTwice(store, call)
    ensures recvlen == 0 ==> EmptyAnswer(store, call)
  {
    var len := Min(bufLen, |file| - offset);
    call, data := call0, [];
    var trytime := 2;
    while true
      invariant call == call0 + 2 - trytime && 1 <= trytime <= 2 && data == []
      invariant trytime == 1 ==> store(call0) < 0
      decreases trytime
    {
      recvlen := Min(store(call), len);
      call := call + 1;
      if recvlen >= 0 {
        FromSplit(file, offset, recvlen);
        data := file[offset..offset + recvlen];
        return;
      }
      trytime := trytime - 1;
      if trytime == 0 {
        return;
      }
    }
  }

  function Downloaded(isAscii: bool, s: seq<byte>): seq<byte> {
    if isAscii then ToAscii(false, s) else s
  }

  /** What a download is for: in ASCII mode every LF sent has a CR before it, and reading the lines back
      gives what storing the file itself would. */
  lemma DownloadedMeaning(isAscii: bool, s: seq<byte>)
    ensures !isAscii ==> Downloaded(isAscii, s) == s
    ensures isAscii ==> Network(false, Downloaded(isAscii, s)) && ToBin(Downloaded(isAscii, s)) == ToBin(s)
  {
    ToAsciiIsNetwork(false, s);
    ToBinToAscii(false, s);
  }

  /** What is written for one slice of the download buffer. */
  function SliceOut(isAscii: bool, prevCr: bool, slice: seq<byte>): seq<byte> {
    if isAscii then ToAscii(prevCr, slice) else slice
  }

  /** Appending one converted slice keeps what was sent in step with what was read. */
  lemma DownloadStep(before: seq<byte>, isAscii: bool, done: seq<byte>, slice: seq<byte>)
    ensures before + Downloaded(isAscii, done) + SliceOut(isAscii, isAscii && LastCr(false, done), slice)
         == before + Downloaded(isAscii, done + slice)
    ensures LastCr(LastCr(false, done), slice) == LastCr(false, done + slice)
  {
    ToAsciiChunk(false, done, slice);
    Assoc(before, Downloaded(isAscii, done), SliceOut(isAscii, isAscii && LastCr(false, done), slice));
  }

  /** Convert one slice of the download buffer and write it to the network. A write that breaks off is
      an error, whatever got out. */
  method SendChunk(net: Sink, slice: seq<byte>, asciiBuf: array<byte>, isAscii: bool, prevCr: bool, w: Write)
    returns (written: int, want: nat, lastWasCr: bool)
    requires 2 * |slice| <= asciiBuf.Length
    modifies net, asciiBuf
    ensures want == |SliceOut(isAscii, prevCr, slice)| <= 2 * |slice|
    ensures written == if w.Broke? then -1 else Min(w.n, want)
    ensures net.data == old(net.data) + Part(SliceOut(isAscii, prevCr, slice), w)
    ensures lastWasCr == if isAscii then LastCr(prevCr, slice) else prevCr
  {
    lastWasCr := prevCr;
    var out;
    if isAscii {
      want, lastWasCr := BinToAscii(slice, asciiBuf, prevCr);
      out := asciiBuf[..want];
    } else {
      want, out := |slice|, slice;
    }
    net.data := net.data + Part(out, w);
    written := if w.Broke? then -1 else Min(w.n, want);
  }

  /** One slice of the download buffer, seen from the file: what was sent goes on exactly. */
  method SendSlice(net: Sink, slice: seq<byte>, asciiBuf: array<byte>, isAscii: bool, prevCr: bool, w: Write,
                   ghost before: seq<byte>, ghost done: seq<byte>)
    returns (written: int, want: nat, lastWasCr: bool)
    requires 2 * |slice| <= asciiBuf.Length
    requires net.data == before + Downloaded(isAscii, done)
    requires prevCr == (isAscii && LastCr(false, done))
    modifies net, asciiBuf
    ensures written == if w.Broke? then -1 else Min(w.n, want)
    ensures written == want <==> Complete(SliceOut(isAscii, prevCr, slice), w)
    ensures net.data == before + Downloaded(isAscii, done) + Part(SliceOut(isAscii, prevCr, slice), w)
    ensures |net.data| == |old(net.data)| + Min(w.n, want)
    ensures written == want ==> net.data == before + Downloaded(isAscii, done + slice)
    ensures lastWasCr == (isAscii && LastCr(false, done + slice))
  {
    DownloadStep(before, isAscii, done, slice);
    PartOfAll(SliceOut(isAscii, prevCr, slice), w);
    written, want, lastWasCr := SendChunk(net, slice, asciiBuf, isAscii, prevCr, w);
  }

  /** `n` of the buffered bytes are taken. */
  lemma TakeSlice(whole: seq<byte>, done: seq<byte>, pend: seq<byte>, rest: seq<byte>, n: nat)
    requires n <= |pend| && whole == done + (pend + rest)
    ensures whole == (done + pend[..n]) + (pend[n..] + rest)
    ensures whole == done + (pend[..n] + (pend[n..] + rest))
  {
    assert pend == pend[..n] + pend[n..];
    Assoc(done, pend[..n], pend[n..] + rest);
    Assoc(pend[..n], pend[n..], rest);
  }

  /** Fetch more when the download buffer is used up and the file has more. Nothing pending
      afterwards means the end, or an error when `recvlen` is negative. */
  method Refill(file: seq<byte>, bufLen: nat, pend0: seq<byte>, offset0: nat, store: nat -> int, call0: nat)
    returns (recvlen: int, pend: seq<byte>, offset: nat, call: nat)
    requires 0 < bufLen
    ensures pend + From(file, offset) == pend0 + From(file, offset0)
    ensures pend == [] ==> recvlen <= 0
    ensures pend == [] && recvlen == 0 ==> From(file, offset) == [] || EmptyAnswer(store, call)
    ensures pend == [] && recvlen < 0 ==> FailedTwice(store, call)
  {
    recvlen, pend, offset, call := 0, pend0, offset0, call0;
    if |pend0| == 0 && offset0 < |file| {
      recvlen, pend, call := CosDownload(file, bufLen, offset0, store, call0);
      offset := offset0 + |pend|;
      assert pend0 + From(file, offset0) == From(file, offset0);
    }
  }

  /** The write of a slice was not complete: the conversion of what came before it is out, and the part
      of its own that got out. */
  ghost predicate CutShort(before: seq<byte>, now: seq<byte>, isAscii: bool, done: seq<byte>, slice: seq<byte>,
    w: Write)
  {
    var out := SliceOut(isAscii, isAscii && LastCr(false, done), slice);
    !Complete(out, w) && now == before + Downloaded(isAscii, done) + Part(out, w)
  }

  lemma Appended(a: seq<byte>, b: seq<byte>)
    ensures a <= a + b && (a + b)[|a|..] == b
  {
  }

  /** And when a write was not complete: what is out begins the conversion of the slice and all before. */
  lemma CutShortMeaning(before: seq<byte>, now: seq<byte>, isAscii: bool, done: seq<byte>, slice: seq<byte>, w: Write)
    requires CutShort(before, now, isAscii, done, slice, w)
    ensures !isAscii ==> before + done <= now <= before + (done + slice)
    ensures isAscii ==> before + ToAscii(false, done) <= now <= before + ToAscii(false, done + slice)
  {
    DownloadStep(before, isAscii, done, slice);
    PartOfAll(SliceOut(isAscii, isAscii && LastCr(false, done), slice), w);
  }

  /** `do_file_send_rwloop`. For every schedule of download sizes, chunk sizes and network writes: the
      bytes taken from the file are sent converted, all of them unless a write was not complete; they
      are all of the file from the restart offset on, unless the last call of the store answered a
      nonempty range with nothing. The count is that of the bytes sent, but for a write that broke
      off, whose bytes are not counted. `pend` is the unread part of the download buffer, `slice` the
      last one taken from it. */
  method FileSend(net: Sink, file: seq<byte>, restart: nat, tunableChunk: nat, tunableDownload: nat,
                  isAscii: bool, store: nat -> int, accept: nat -> Write)
    returns (retval: int, transferred: nat, ghost done: seq<byte>, ghost slice: seq<byte>, ghost left: seq<byte>,
      ghost calls: nat, ghost writes: nat)
    modifies net
    ensures retval in {0, -1, -2}
    ensures done + (slice + left) == if restart < |file| then file[restart..] else []
    ensures retval != -2 ==> slice == [] && old(net.data) <= net.data
    ensures retval != -2 && !isAscii ==> net.data[|old(net.data)|..] == done
    ensures retval != -2 && isAscii ==>
      var sent := net.data[|old(net.data)|..]; Network(false, sent) && ToBin(sent) == ToBin(done)
    ensures retval != -2 ==> net.data == old(net.data) + Downloaded(isAscii, done)
    ensures retval == -2 ==> CutShort(old(net.data), net.data, isAscii, done, slice, accept(writes))
    ensures retval == 0 ==> left == [] || EmptyAnswer(store, calls)
    ensures retval == -1 ==> FailedTwice(store, calls)
    ensures !(retval == -2 && accept(writes).Broke?) ==> |net.data| == |old(net.data)| + transferred
    ensures retval == -2 && accept(writes).Broke? ==> transferred == |Downloaded(isAscii, done)|
  {
    var chunkSize, bufLen := ChunkSize(tunableChunk), DownloadSize(tunableDownload);
    var asciiBuf := new byte[DATA_BUFSIZE * 2];
    ghost var before := net.data;
    var offset: nat, pend: seq<byte>, prevCr := restart, [], false;
    var c: nat, w: nat := 0, 0;
    transferred, done, slice, left, calls, writes := 0, [], [], From(file, restart), 0, 0;
    assert before + Downloaded(isAscii, []) == before;
    while true
      invariant slice == [] && From(file, restart) == done + left && left == pend + From(file, offset)
      invariant net.data == before + Downloaded(isAscii, done)
      invariant prevCr == (isAscii && LastCr(false, done))
      invariant |net.data| == |before| + transferred && w == writes
      decreases |left|
    {
      var recvlen;
      recvlen, pend, offset, c := Refill(file, bufLen, pend, offset, store, c);
      calls := c;
      assert slice + left == left;
      if |pend| == 0 {
        assert left == From(file, offset);
        DownloadedMeaning(isAscii, done);
        Appended(before, Downloaded(isAscii, done));
        retval := if recvlen < 0 then -1 else 0;
        return;
      }
      var n := Min(chunkSize, |pend|);
      TakeSlice(From(file, restart), done, pend, From(file, offset), n);
      var chunk, written, want := pend[..n], 0, 0;
      written, want, prevCr := SendSlice(net, chunk, asciiBuf, isAscii, prevCr, accept(w), before, done);
      pend := pend[n..];
      left := pend + From(file, offset);
      if written >= 0 {
        transferred := transferred + written;
      }
      if written != want {
        slice, retval := chunk, -2;
        return;
      }
      done := done + chunk;
      w, writes := w + 1, writes + 1;
    }
  }
}
