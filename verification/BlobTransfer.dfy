/** Whole transfers: a remote read and an atomic remote upload, built from the streaming pieces. */
module BlobTransfer {
  import opened BlobStream
  import opened Common

  // ---- remote read ----

  /** What LocalStorage.ReadFile has to read from `offset` on: nothing if that is past the end. */
  function From(file: Bytes, offset: nat): Bytes {
    if offset > |file| then [] else file[offset..]
  }

  /**
  A client reading the chunks of a stream with buffers of the given sizes, until a read reports something
  other than success (a buffer of 512 bytes once the sizes run out).
  */
  method ClientRead(sent: seq<Bytes>, end: Err, sizes: seq<nat>) returns (got: Bytes, e: Err)
    requires end == EOF || end == Fail
    ensures got == Flatten(sent) && e == end
  {
    var stream := new Receiver(sent, end);
    var r := new BlobStreamReader(stream);
    got, e := ReadSizes(r, sizes);
    if e == Nil {
      var more;
      more, e := ReadToEnd(r, 512);
      got := got + more;
    }
  }

  /** Reading a remote file from `offset`.  `ok` is what the client is told. */
  method RemoteRead(file: Bytes, offset: int, plan: seq<(nat, bool)>, diskEnd: Err, net: nat -> Err, sizes: seq<nat>)
    returns (got: Bytes, ok: bool)
    requires diskEnd == EOF || diskEnd == Fail
    ensures offset < 0 ==> !ok && got == []
    ensures 0 <= offset <= |file| ==>
              && got <= file[offset..]
              && (ok <==> Cut(Content(file[offset..], diskEnd, plan), net) || (got == file[offset..] && diskEnd == EOF))
    ensures offset > |file| ==> got == [] && (ok <==> diskEnd == EOF)
  {
    if offset < 0 {
      return [], false;
    }
    var data := From(file, offset);
    ChunksAreContent(Content(data, diskEnd, plan));
    var sent, err := StreamContent(Content(data, diskEnd, plan), net);
    var e;
    got, e := ClientRead(sent, if err == Nil then EOF else Fail, sizes);
    ok := e == EOF;
  }

  // ---- upload ----

  /** The server's file system.  A rename is atomic, and a failed one changes nothing. */
  class FileSystem {
    var files: map<string, Bytes>
  }

  /**
  What can go wrong on the server: whether the writer cannot be opened, how many bytes get written
  by a write that fails, whether the request's context is cancelled before the file is published,
  and whether syncing, closing, moving or removing the temporary file fails.
  */
  datatype Faults = Faults(
    open: bool, write: nat -> Outcome, cancelled: bool,
    sync: bool, close: bool, move: bool, remove: bool)
  datatype Outcome = Done | Short(k: nat)

  /** Every step on the server succeeds. */
  ghost predicate Smooth(f: Faults) {
    && !f.open && !f.cancelled && !f.sync && !f.close && !f.move
    && forall i: nat :: f.write(i) == Done
  }

  class LocalWriter {
    const fs: FileSystem
    const tmp: string
    const dest: string

    constructor (fs: FileSystem, tmp: string, dest: string)
      requires tmp !in fs.files && tmp != dest
      modifies fs
      ensures this.fs == fs && this.tmp == tmp && this.dest == dest
      ensures fs.files == old(fs.files)[tmp := []]
    {
      this.fs, this.tmp, this.dest := fs, tmp, dest;
      new;
      fs.files := fs.files[tmp := []];
    }

    method Write(p: Bytes, outcome: Outcome) returns (err: Err)
      requires tmp in fs.files
      modifies fs
      ensures err == if outcome.Done? then Nil else Fail
      ensures tmp in fs.files && fs.files == old(fs.files)[tmp := fs.files[tmp]]
      ensures err == Nil ==> fs.files[tmp] == old(fs.files[tmp]) + p
      ensures old(fs.files[tmp]) <= fs.files[tmp] <= old(fs.files[tmp]) + p
    {
      var n := if outcome.Done? then |p| else Min(outcome.k, |p|);
      fs.files := fs.files[tmp := fs.files[tmp] + p[..n]];
      err := if outcome.Done? then Nil else Fail;
    }

    /** Publishes the temporary file, or discards it if the context was cancelled. */
    method Close(cancelled: bool, f: Faults) returns (err: Err)
      requires tmp in fs.files && tmp != dest
      modifies fs
      ensures err == Nil <==> !cancelled && !f.sync && !f.close && !f.move
      ensures err == Nil ==> fs.files == old(fs.files)[dest := old(fs.files[tmp])] - {tmp}
      ensures err != Nil ==> fs.files == old(fs.files) || fs.files == old(fs.files) - {tmp}
      ensures cancelled && !f.remove ==> tmp !in fs.files
    {
      if cancelled {
        if !f.remove {
          fs.files := fs.files - {tmp};
        }
        return Fail;
      }
      if f.sync || f.close || f.move {
        return Fail;
      }
      fs.files := fs.files[dest := fs.files[tmp]] - {tmp};
      return Nil;
    }
  }

  const COPY_BUF: nat := 0x8000

  /** One turn of io.Copy: read a buffer, write what was read. */
  method CopyOnce(r: BlobStreamReader, w: LocalWriter, outcome: Outcome) returns (n: nat, er: Err, ew: Err)
    requires r.Valid() && w.tmp in w.fs.files
    modifies r, r.stream, w.fs
    ensures r.Valid()
    ensures w.tmp in w.fs.files && w.fs.files == old(w.fs.files)[w.tmp := w.fs.files[w.tmp]]
    ensures ew == Nil ==> w.fs.files[w.tmp] + r.Pending() == old(w.fs.files[w.tmp] + r.Pending())
    ensures ew != Nil ==> outcome.Short?
    ensures |old(r.Pending())| == n + |r.Pending()|
    ensures er == Nil ==> n > 0 || (r.eofReached && !old(r.eofReached))
    ensures er != Nil ==> er == r.stream.end && r.Pending() == []
  {
    var buf := new bv8[COPY_BUF];
    ghost var pending, written := r.Pending(), w.fs.files[w.tmp];
    n, er := r.Read(buf);
    Moved(written, pending, buf[..n], r.Pending());
    ew := Nil;
    if n > 0 {
      ew := w.Write(buf[..n], outcome);
    } else {
      assert buf[..n] == [];
    }
  }

  /** io.Copy from the stream to the temporary file. */
  method CopyTo(r: BlobStreamReader, w: LocalWriter, f: Faults) returns (err: Err)
    requires r.Valid() && w.tmp in w.fs.files && w.fs.files[w.tmp] == []
    modifies r, r.stream, w.fs
    ensures w.tmp in w.fs.files && w.fs.files == old(w.fs.files)[w.tmp := w.fs.files[w.tmp]]
    ensures err == Nil ==> r.stream.end == EOF && w.fs.files[w.tmp] == old(r.Pending())
    ensures r.stream.end == EOF && (forall i: nat :: f.write(i) == Done) ==> err == Nil
  {
    var i: nat := 0;
    while true
      invariant r.Valid() && w.tmp in w.fs.files
      invariant w.fs.files == old(w.fs.files)[w.tmp := w.fs.files[w.tmp]]
      invariant w.fs.files[w.tmp] + r.Pending() == old(r.Pending())
      decreases |r.Pending()|, !r.eofReached
    {
      var n, er, ew := CopyOnce(r, w, f.write(i));
      if ew != Nil {
        return Fail;
      }
      if n > 0 {
        i := i + 1;
      }
      if er == EOF {
        return Nil;
      }
      if er != Nil {
        return Fail;
      }
    }
  }

  /**
  PutStream: all or nothing.  The destination changes only when the stream ended cleanly, every
  step succeeded, and then it holds exactly the bytes received.
  */
  method PutStream(fs: FileSystem, stream: Receiver, filename: string, tmp: string, f: Faults) returns (err: Err)
    requires stream.end == EOF || stream.end == Fail
    requires tmp !in fs.files && tmp != filename
    modifies fs, stream
    ensures err == Nil ==>
              && stream.end == EOF && !f.cancelled
              && fs.files == old(fs.files)[filename := old(Flatten(stream.chunks))]
    ensures err != Nil ==> fs.files - {tmp} == old(fs.files)
    ensures err != Nil && f.cancelled && !f.remove ==> fs.files == old(fs.files)
    ensures filename != "" && stream.end == EOF && Smooth(f) ==> err == Nil
  {
    if filename == "" {
      return Fail;
    }
    var reader := new BlobStreamReader(stream);
    if f.open {
      return Fail;
    }
    var w := new LocalWriter(fs, tmp, filename);
    err := CopyTo(reader, w, f);
    if err != Nil {
      // cancel() comes first, so Close discards the file
      var _ := w.Close(true, f);
      return Fail;
    }
    err := w.Close(f.cancelled, f);
  }

  /** The client's side of an upload: writes each of `ws` until one fails. */
  method WriteAll(ws: seq<Bytes>, net: nat -> Err) returns (sent: seq<Bytes>, ok: bool)
    ensures Flatten(sent) <= Flatten(ws)
    ensures ok ==> Flatten(sent) == Flatten(ws)
    ensures (forall i: nat :: net(i) == Nil) ==> ok
  {
    sent, ok := [], true;
    assert ws[0..] == ws;
    for i := 0 to |ws|
      invariant Flatten(sent) + Flatten(ws[i..]) == Flatten(ws)
    {
      var base := |sent|;
      var more, n, err := ClientWrite(ws[i], (k: nat) => net(base + k));
      FlattenAppend(sent, more);
      ghost var before, tail := Flatten(sent), Flatten(ws[i + 1..]);
      assert ws[i..][1..] == ws[i + 1..];
      assert Flatten(ws) == before + (ws[i] + tail);
      sent := sent + more;
      if err != Nil {
        assert before + ws[i][..n] <= before + (ws[i] + tail);
        return sent, false;
      }
      assert ws[i][..n] == ws[i];
    }
  }

  /**
  An upload end to end.  The server sees a clean end of stream only if every write succeeded and the
  client closed; otherwise it sees some of the chunks and then an error.
  */
  method Upload(fs: FileSystem, ws: seq<Bytes>, net: nat -> Err, closes: bool, arrived: nat,
                filename: string, tmp: string, f: Faults) returns (err: Err)
    requires tmp !in fs.files && tmp != filename
    modifies fs
    ensures err == Nil ==> fs.files == old(fs.files)[filename := Flatten(ws)]
    ensures err != Nil ==> fs.files - {tmp} == old(fs.files)
    ensures closes && (forall i: nat :: net(i) == Nil) && filename != "" && Smooth(f) ==> err == Nil
  {
    var sent, ok := WriteAll(ws, net);
    var clean := ok && closes;
    var stream := new Receiver(if clean then sent else sent[..Min(arrived, |sent|)], if clean then EOF else Fail);
    err := PutStream(fs, stream, filename, tmp, f);
  }
}
