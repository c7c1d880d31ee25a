/**
Blob streaming: a sender cuts bytes into chunks, a receiver turns whatever chunks arrive into
reads of whatever size is asked for.
*/
module BlobStream {

  import opened Common

  const CHUNK_SIZE: nat := 0x2_0000

  datatype Err = Nil | EOF | Fail

  function Flatten(chunks: seq<Bytes>): Bytes {
    if chunks == [] then [] else chunks[0] + Flatten(chunks[1..])
  }

  lemma {:induction false} FlattenAppend(a: seq<Bytes>, b: seq<Bytes>)
    ensures Flatten(a + b) == Flatten(a) + Flatten(b)
  {
    if a == [] {
      assert a + b == b;
    } else {
      var t := a[1..];
      assert (a + b)[1..] == t + b;
      FlattenAppend(t, b);
      Behind(a[0] + Flatten(t), a[0], Flatten(t), Flatten(b));
    }
  }

  lemma FlattenPush(a: seq<Bytes>, c: Bytes)
    ensures Flatten(a + [c]) == Flatten(a) + c
  {
    FlattenAppend(a, [c]);
    assert Flatten([c]) == c;
  }

  lemma Regroup(a: Bytes, b: Bytes, c: Bytes, d: Bytes, rest: Bytes)
    requires a + b == c + d
    ensures a + (b + rest) == c + (d + rest)
  {
    assert a + (b + rest) == a + b + rest;
    assert c + (d + rest) == c + d + rest;
  }

  lemma Behind(a: Bytes, b: Bytes, c: Bytes, rest: Bytes)
    requires a == b + c
    ensures a + rest == b + (c + rest)
  {
  }

  lemma Moved(got: Bytes, pending: Bytes, read: Bytes, left: Bytes)
    requires pending == read + left
    ensures got + pending == got + read + left
    ensures |pending| == |read| + |left|
  {
  }

  function Min(a: nat, b: nat): nat { if a < b then a else b }

  // ---- the receiving side ----

  /** The receiving end of a gRPC stream: chunks still to come, then how it ends, for good. */
  class Receiver {
    var chunks: seq<Bytes>
    const end: Err

    constructor (chunks: seq<Bytes>, end: Err)
      ensures this.chunks == chunks && this.end == end
    {
      this.chunks, this.end := chunks, end;
    }

    method Recv() returns (chunk: Bytes, err: Err)
      requires end != Nil
      modifies this
      ensures if old(chunks) == [] then err == end && chunks == [] && chunk == []
              else err == Nil && chunk == old(chunks)[0] && chunks == old(chunks)[1..]
    {
      if chunks == [] {
        return [], end;
      }
      chunk, err := chunks[0], Nil;
      chunks := chunks[1..];
    }
  }

  method CopyInto(dst: array<bv8>, at: nat, src: Bytes)
    requires at + |src| <= dst.Length
    modifies dst
    ensures dst[..] == old(dst[..at]) + src + old(dst[at + |src|..])
  {
    for i := 0 to |src|
      invariant forall k | 0 <= k < i :: dst[at + k] == src[k]
      invariant forall k | 0 <= k < dst.Length && !(at <= k < at + i) :: dst[k] == old(dst[k])
    {
      dst[at + i] := src[i];
    }
    assert dst[..at] == old(dst[..at]) && dst[at..at + |src|] == src;
    assert dst[at + |src|..] == old(dst[at + |src|..]);
  }

  class BlobStreamReader {
    const stream: Receiver
    var hasLast: bool
    var lastPayload: Bytes
    var lastOffset: nat
    var eofReached: bool

    ghost predicate Valid()
      reads this, stream
    {
      && (stream.end == EOF || stream.end == Fail)
      && (hasLast ==> lastOffset < |lastPayload|)
      && (eofReached ==> !hasLast && stream.chunks == [] && stream.end == EOF)
    }

    /** Every byte not yet handed to a caller: the cached leftover, then the chunks to come. */
    ghost function Pending(): Bytes
      reads this, stream
      requires Valid()
    {
      Leftover() + Flatten(stream.chunks)
    }

    constructor (stream: Receiver)
      requires stream.end == EOF || stream.end == Fail
      ensures Valid() && this.stream == stream && !eofReached
      ensures Pending() == Flatten(stream.chunks)
    {
      this.stream := stream;
      hasLast, lastPayload, lastOffset, eofReached := false, [], 0, false;
    }

    ghost function Leftover(): Bytes
      reads this
      requires hasLast ==> lastOffset < |lastPayload|
    {
      if hasLast then lastPayload[lastOffset..] else []
    }

    /** Starts a read with what the last chunk left over. */
    method UseLast(out: array<bv8>) returns (n: nat)
      requires hasLast ==> lastOffset < |lastPayload|
      modifies this`hasLast, this`lastOffset, out
      ensures hasLast ==> lastOffset < |lastPayload| && n == out.Length
      ensures n <= out.Length && out[..n] + Leftover() == old(Leftover())
      ensures out[n..] == old(out[..])[n..]
    {
      if !hasLast {
        return 0;
      }
      n := |lastPayload| - lastOffset;
      if out.Length < n {
        CopyInto(out, 0, lastPayload[lastOffset..lastOffset + out.Length]);
        lastOffset := lastOffset + out.Length;
        return out.Length;
      }
      CopyInto(out, 0, lastPayload[lastOffset..]);
      hasLast := false;
    }

    /** Copies as much of `chunk` as fits at `offset` and caches the rest. */
    method Place(out: array<bv8>, offset: nat, chunk: Bytes) returns (n: nat)
      requires offset < out.Length && !hasLast
      modifies this`hasLast, this`lastPayload, this`lastOffset, out
      ensures hasLast ==> lastOffset < |lastPayload| && n == out.Length
      ensures n <= out.Length && out[..n] + Leftover() == old(out[..offset]) + chunk
      ensures out[n..] == old(out[..])[n..]
    {
      var lenToWrite;
      if out.Length - offset >= |chunk| {
        lenToWrite := |chunk|;
      } else {
        lenToWrite := out.Length - offset;
        hasLast, lastPayload, lastOffset := true, chunk, lenToWrite;
      }
      CopyInto(out, offset, chunk[..lenToWrite]);
      n := offset + lenToWrite;
    }

    /** Receives chunks until `out` is full from `at` on, or the stream ends. */
    method Fill(out: array<bv8>, at: nat) returns (n: nat, err: Err)
      requires Valid() && !eofReached && at <= out.Length && (hasLast ==> at == out.Length)
      modifies this, stream, out
      ensures Valid() && at <= n <= out.Length && err != EOF
      ensures out[..n] + Pending() == old(out[..at] + Pending())
      ensures out[n..] == old(out[..])[n..]
      ensures n < out.Length && err == Nil ==> eofReached
      ensures err == Fail ==> n < out.Length && Pending() == [] && stream.end == Fail
    {
      n := at;
      while n < out.Length
        invariant Valid() && at <= n <= out.Length && !eofReached
        invariant hasLast ==> n == out.Length
        invariant out[..n] + Pending() == old(out[..at] + Pending())
        invariant out[n..] == old(out[..])[n..]
        decreases |stream.chunks|
      {
        ghost var before := out[..n];
        var chunk, e := stream.Recv();
        if e == EOF {
          eofReached := true;
          break;
        }
        if e != Nil {
          return n, e;
        }
        n := Place(out, n, chunk);
        Regroup(before, chunk, out[..n], Leftover(), Flatten(stream.chunks));
      }
      return n, Nil;
    }

    /**
    Fills `out` from the stream: no byte is lost, repeated or reordered, and a short read without
    an error means the end was reached.
    */
    method Read(out: array<bv8>) returns (n: nat, err: Err)
      requires Valid()
      modifies this, stream, out
      ensures Valid() && n <= out.Length
      ensures out[..n] + Pending() == old(Pending())
      ensures out[n..] == old(out[..])[n..]
      ensures err == EOF <==> old(eofReached)
      ensures old(eofReached) ==> eofReached && n == 0
      ensures n < out.Length && err == Nil ==> eofReached
      ensures err == Fail ==> n < out.Length && Pending() == [] && stream.end == Fail
    {
      if eofReached {
        return 0, EOF;
      }
      n := UseLast(out);
      Behind(old(Leftover()), out[..n], Leftover(), Flatten(stream.chunks));
      assert out[..n] + Pending() == old(Pending());
      n, err := Fill(out, n);
    }
  }

  /** Any number of reads, of any sizes: what they return plus what is pending is the whole stream. */
  method ReadSizes(r: BlobStreamReader, sizes: seq<nat>) returns (got: Bytes, err: Err)
    requires r.Valid()
    modifies r, r.stream
    ensures r.Valid() && got + r.Pending() == old(r.Pending())
    ensures err != Nil ==> r.Pending() == []
    ensures err == EOF ==> r.stream.end == EOF
    ensures err == Fail ==> r.stream.end == Fail
  {
    got, err := [], Nil;
    for i := 0 to |sizes|
      invariant r.Valid() && got + r.Pending() == old(r.Pending())
      invariant err == Nil
    {
      var out := new bv8[sizes[i]];
      ghost var pending := r.Pending();
      var n;
      n, err := r.Read(out);
      Moved(got, pending, out[..n], r.Pending());
      got := got + out[..n];
      if err != Nil {
        return;
      }
    }
  }

  /** Reading on with a non-empty buffer reaches the end, having returned everything pending. */
  method ReadToEnd(r: BlobStreamReader, size: nat) returns (got: Bytes, err: Err)
    requires r.Valid() && size > 0
    modifies r, r.stream
    ensures r.Valid() && got == old(r.Pending()) && r.Pending() == []
    ensures err == r.stream.end
  {
    got := [];
    while true
      invariant r.Valid() && got + r.Pending() == old(r.Pending())
      decreases |r.Pending()|, !r.eofReached
    {
      var out := new bv8[size];
      ghost var pending := r.Pending();
      var n;
      n, err := r.Read(out);
      ghost var left := r.Pending();
      Moved(got, pending, out[..n], left);
      got := got + out[..n];
      if err != Nil {
        return;
      }
    }
  }

  // ---- the sending side ----

  /**
  The content being sent: its bytes, how it ends (for good), and for each read how many bytes it
  is willing to return and whether it reports its end together with the last of them.
  */
  datatype Content = Content(data: Bytes, end: Err, plan: seq<(nat, bool)>)

  /** One Read of at most `limit` bytes. */
  function ReadContent(c: Content, limit: nat): (r: (Bytes, Err, Content))
    requires limit > 0
    ensures r.0 + r.2.data == c.data && |r.0| <= limit && r.2.end == c.end
    ensures r.1 == Nil || (r.1 == c.end && r.2.data == [])
    ensures c.data == [] ==> r.1 == c.end
    ensures c.data != [] && r.0 == [] ==> |r.2.plan| < |c.plan|
    ensures |r.2.plan| <= |c.plan|
  {
    var (most, early) := if c.plan == [] then (limit, false) else c.plan[0];
    var k := Min(Min(most, limit), |c.data|);
    var c' := Content(c.data[k..], c.end, if c.plan == [] then [] else c.plan[1..]);
    (c.data[..k], if c.data == [] || (early && k == |c.data|) then c.end else Nil, c')
  }

  /** The chunks that are sent if every Send succeeds. */
  function Chunks(c: Content): seq<Bytes>
    requires c.end != Nil
    decreases |c.data| + |c.plan|
  {
    var (payload, e, c') := ReadContent(c, CHUNK_SIZE);
    if |payload| > 0 then
      assert |c.data| == |payload| + |c'.data|;
      [payload] + Chunks(c')
    else if e != Nil then []
    else Chunks(c')
  }

  /** The chunks are the content, none of them empty or too long. */
  lemma {:induction false} ChunksAreContent(c: Content)
    requires c.end != Nil
    ensures Flatten(Chunks(c)) == c.data
    ensures forall i | 0 <= i < |Chunks(c)| :: 0 < |Chunks(c)[i]| <= CHUNK_SIZE
    decreases |c.data| + |c.plan|
  {
    var (payload, e, c') := ReadContent(c, CHUNK_SIZE);
    assert |c.data| == |payload| + |c'.data|;
    if |payload| > 0 || e == Nil {
      ChunksAreContent(c');
    }
  }

  /** A content that returns as much as it is asked for is cut into full chunks and one last. */
  lemma {:induction false} ChunksAreFull(c: Content, i: nat)
    requires c.end != Nil && c.plan == [] && i < |Chunks(c)|
    ensures i < |Chunks(c)| - 1 ==> |Chunks(c)[i]| == CHUNK_SIZE
    decreases i
  {
    var (payload, e, c') := ReadContent(c, CHUNK_SIZE);
    if i > 0 {
      ChunksAreFull(c', i - 1);
    } else if |Chunks(c')| > 0 {
      ChunksAreContent(c');
    }
  }

  /** Some Send answers EOF while all before it succeed. */
  ghost predicate Cut(c: Content, net: nat -> Err)
    requires c.end != Nil
  {
    exists i | 0 <= i < |Chunks(c)| :: net(i) == EOF && forall j | 0 <= j < i :: net(j) == Nil
  }

  /** `sent` are the chunks before the first Send that does not succeed. */
  ghost predicate SentUntil(c: Content, net: nat -> Err, sent: seq<Bytes>)
    requires c.end != Nil
  {
    && sent <= Chunks(c) && (forall i | 0 <= i < |sent| :: net(i) == Nil)
    && (|sent| < |Chunks(c)| ==> net(|sent|) != Nil)
  }

  lemma {:induction false} LongerFlatten(a: seq<Bytes>, b: seq<Bytes>)
    requires a <= b && forall i | 0 <= i < |b| :: 0 < |b[i]|
    ensures Flatten(a) <= Flatten(b) && (Flatten(a) == Flatten(b) <==> a == b)
  {
    assert b == a + b[|a|..];
    FlattenAppend(a, b[|a|..]);
    if a != b {
      assert |Flatten(b[|a|..])| >= |b[|a|]|;
    }
  }

  lemma SentMeans(c: Content, net: nat -> Err, sent: seq<Bytes>)
    requires c.end != Nil && SentUntil(c, net, sent)
    ensures forall i | 0 <= i < |sent| :: 0 < |sent[i]| <= CHUNK_SIZE
    ensures Flatten(sent) <= c.data && (Flatten(sent) == c.data <==> sent == Chunks(c))
    ensures Cut(c, net) <==> |sent| < |Chunks(c)| && net(|sent|) == EOF
  {
    ChunksAreContent(c);
    LongerFlatten(sent, Chunks(c));
  }

  /** One read of the content is the next chunk to send, the end of them, or nothing. */
  lemma NextChunk(c: Content, sent: seq<Bytes>, all: seq<Bytes>)
    requires c.end != Nil && sent + Chunks(c) == all
    ensures var (payload, e, c') := ReadContent(c, CHUNK_SIZE);
            && sent <= all
            && (if |payload| > 0 then |sent| < |all| && sent + [payload] + Chunks(c') == all
                else if e != Nil then sent == all
                else sent + Chunks(c') == all)
  {
    var (payload, e, c') := ReadContent(c, CHUNK_SIZE);
    if |payload| > 0 {
      assert sent + ([payload] + Chunks(c')) == sent + [payload] + Chunks(c');
    }
  }

  /**
  streamContent, against a network that answers the i-th Send with `net(i)`.  Sending stops at the first
  answer that is not success.  Success is reported exactly when everything was sent and the content ended
  cleanly, or when that answer is EOF, although then the tail is missing.
  */
  method StreamContent(content: Content, net: nat -> Err) returns (sent: seq<Bytes>, err: Err)
    requires content.end == EOF || content.end == Fail
    ensures SentUntil(content, net, sent)
    ensures forall i | 0 <= i < |sent| :: 0 < |sent[i]| <= CHUNK_SIZE
    ensures Flatten(sent) <= content.data
    ensures Cut(content, net) ==> Flatten(sent) != content.data
    ensures err == Nil <==> Cut(content, net) || (Flatten(sent) == content.data && content.end == EOF)
    ensures err == Nil || err == Fail
  {
    sent := [];
    var c := content;
    while true
      invariant c.end == content.end && sent + Chunks(c) == Chunks(content)
      invariant forall i | 0 <= i < |sent| :: net(i) == Nil
      decreases |c.data| + |c.plan|
    {
      NextChunk(c, sent, Chunks(content));
      var (payload, e, c') := ReadContent(c, CHUNK_SIZE);
      assert |c.data| == |payload| + |c'.data|;
      if |payload| > 0 {
        e := net(|sent|);
        if e == Nil {
          sent := sent + [payload];
        }
      }
      if e != Nil {
        SentMeans(content, net, sent);
        return sent, if e == EOF then Nil else Fail;
      }
      c := c';
    }
  }

  /** A blob of which nothing is sent, and which is reported as sent. */
  method NothingSent(content: Content, net: nat -> Err) returns (sent: seq<Bytes>, err: Err)
    requires content.end == EOF || content.end == Fail
    requires content.data != [] && net(0) == EOF
    ensures sent == [] && err == Nil
  {
    ChunksAreContent(content);
    sent, err := StreamContent(content, net);
  }

  /** streamWriter.Write: cuts `p` into chunks and sends each; the count excludes the one that failed. */
  method ClientWrite(p: Bytes, net: nat -> Err) returns (sent: seq<Bytes>, n: nat, err: Err)
    ensures n <= |p| && Flatten(sent) == p[..n]
    ensures forall i | 0 <= i < |sent| :: 0 < |sent[i]| <= CHUNK_SIZE && net(i) == Nil
    ensures forall i | 0 <= i < |sent| :: |sent[i]| == CHUNK_SIZE || (i == |sent| - 1 && n == |p|)
    ensures err == Nil <==> n == |p|
    ensures err != Nil ==> err == net(|sent|)
  {
    sent, n := [], 0;
    var q := p;
    while |q| > 0
      invariant n <= |p| && q == p[n..] && Flatten(sent) == p[..n]
      invariant forall i | 0 <= i < |sent| :: 0 < |sent[i]| <= CHUNK_SIZE && net(i) == Nil
      invariant forall i | 0 <= i < |sent| :: |sent[i]| == CHUNK_SIZE || (i == |sent| - 1 && n == |p|)
    {
      var l := Min(CHUNK_SIZE, |q|);
      var chunk := q[..l];
      q := q[l..];
      err := net(|sent|);
      if err != Nil {
        return;
      }
      FlattenPush(sent, chunk);
      sent := sent + [chunk];
      n := n + l;
    }
    return sent, n, Nil;
  }
}
