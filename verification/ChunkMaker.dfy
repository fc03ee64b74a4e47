/** The streaming chunk maker: a circular buffer of twice the minimum chunk size, fed by one reader at a time. */
module ChunkMakers {
  import opened Common
  import opened Buzhash
  import opened Chunking

  /** The hash of a file is modelled by the bytes hashed, which makes it injective. */
  datatype FileHash = FileHash(content: Bytes)

  /** A file being read: reads may be short or, a bounded number of times, empty; the last may come with EOF. */
  class Reader {
    var rest: Bytes
    var stalls: nat

    constructor (content: Bytes, stalls: nat)
      ensures rest == content && this.stalls == stalls
    {
      rest, this.stalls := content, stalls;
    }

    method Read(buffer: array<Byte>, start: nat, room: nat) returns (count: nat, eof: bool)
      requires start + room <= buffer.Length && room > 0
      modifies this, buffer
      ensures count <= room && count <= |old(rest)|
      ensures rest == old(rest)[count..]
      ensures buffer[..] == old(buffer[..])[..start] + old(rest)[..count] + old(buffer[..])[start + count..]
      ensures eof ==> rest == []
      ensures stalls <= old(stalls)
      ensures count == 0 && !eof ==> stalls < old(stalls)
    {
      count :| 0 <= count <= room && count <= |rest|;
      eof :| eof ==> count == |rest|;
      if count == 0 && !eof {
        if stalls > 0 {
          stalls := stalls - 1;
        } else if rest == [] {
          eof := true;
        } else {
          count := 1;
        }
      }
      for i := 0 to count
        invariant rest == old(rest) && stalls <= old(stalls)
        invariant buffer[..] == old(buffer[..])[..start] + rest[..i] + old(buffer[..])[start + i..]
        invariant count == 0 && !eof ==> stalls < old(stalls)
      {
        buffer[start + i] := rest[i];
      }
      rest := rest[count..];
    }
  }

  datatype RoundResult = AtMinimum | Inside | Nowhere

  /** The `size` bytes of the circular buffer `b` from `start` on. */
  function Window(b: Bytes, start: nat, size: nat): (w: Bytes)
    requires start <= |b| && size <= |b|
    ensures |w| == size
  {
    if start + size <= |b| then b[start..start + size] else b[start..] + b[..start + size - |b|]
  }

  lemma WindowAt(b: Bytes, start: nat, size: nat, i: nat)
    requires start < |b| && size <= |b| && i < size
    ensures Window(b, start, size)[i] == b[if start + i < |b| then start + i else start + i - |b|]
  {
  }

  /** Reading into the free part extends the window. */
  lemma WindowExtends(b: Bytes, start: nat, size: nat, at: nat, data: Bytes)
    requires start < |b| && size < |b|
    requires at == if start + size < |b| then start + size else start + size - |b|
    requires |data| <= if start + size < |b| then |b| - at else start - at
    ensures Window(b[..at] + data + b[at + |data|..], start, size + |data|) == Window(b, start, size) + data
  {
    var c, end := b[..at] + data + b[at + |data|..], at + |data|;
    if start + size < |b| {
      ReplacedBefore(b, at, data, start);
      assert c[start..end] == c[start..at] + c[at..end];
    } else {
      ReplacedBefore(b, at, data, 0);
      ReplacedAfter(b, at, data, start);
      assert c[..end] == c[0..at] + c[at..end];
      assert b[..at] == b[0..at];
      AppendTo(b[start..], b[..at], data);
      if end == 0 { assert c[start..] + c[..0] == c[start..]; }
    }
  }

  lemma ReplacedBefore(b: Bytes, at: nat, data: Bytes, lo: nat)
    requires lo <= at && at + |data| <= |b|
    ensures var c := b[..at] + data + b[at + |data|..];
      |c| == |b| && c[lo..at] == b[lo..at] && c[at..at + |data|] == data
  {
  }

  lemma ReplacedAfter(b: Bytes, at: nat, data: Bytes, lo: nat)
    requires at + |data| <= lo <= |b|
    ensures (b[..at] + data + b[at + |data|..])[lo..] == b[lo..]
  {
  }

  lemma AppendTo(a: Bytes, b: Bytes, c: Bytes)
    ensures a + (b + c) == a + b + c
  {
  }

  /** Moving `count` bytes out advances the window. */
  lemma WindowDrops(b: Bytes, start: nat, size: nat, count: nat)
    requires start < |b| && count <= size <= |b|
    ensures var start' := if start + count < |b| then start + count else count - (|b| - start);
      Window(b, start', size - count) == Window(b, start, size)[count..] &&
      Window(b, start, count) == Window(b, start, size)[..count]
  {
  }

  lemma WindowWraps(b: Bytes, start: nat, count: nat)
    requires start < |b| && count <= |b| <= start + count
    ensures Window(b, start, count) == b[start..] + b[..count - (|b| - start)]
  {
  }

  lemma Associates<T>(a: seq<T>, b: seq<T>, c: seq<T>)
    ensures a + b + c == a + (b + c)
  {
  }

  class ChunkMaker {
    const p: Params
    const buffer: array<Byte>
    var bufferStart: nat
    var bufferSize: nat
    var minimumReached: bool
    var hashSum: Word
    var chunk: Bytes
    var sent: seq<Bytes>
    ghost var input: Bytes
    ghost var finished: bool

    function Buffered(): Bytes
      requires bufferStart <= buffer.Length && bufferSize <= buffer.Length
      reads this, buffer
    {
      Window(buffer[..], bufferStart, bufferSize)
    }

    /** Everything read and not yet sent. */
    function Pending(): Bytes
      requires bufferStart <= buffer.Length && bufferSize <= buffer.Length
      reads this, buffer
    {
      chunk + Buffered()
    }

    ghost predicate Shaped()
      reads this
    {
      p.Valid() && buffer.Length == 2 * p.min && bufferSize <= 2 * p.min &&
      (p.min < p.max ==> bufferStart < 2 * p.min)
    }

    /**
     How the scan of the current chunk stands: no boundary so far, and the hash of the buffer's first bytes at hand.
     */
    ghost predicate Scanning()
      requires Shaped() && bufferStart < 2 * p.min
      reads this, buffer
    {
      if minimumReached then
        p.min <= bufferSize && |chunk| + p.min < p.max &&
        NoBoundary(p, Pending(), |chunk| + p.min) &&
        hashSum == p.Hash(Buffered()[..p.min])
      else chunk == []
    }

    /** What has been sent and what is pending account for the stream. */
    ghost predicate Consistent()
      reads this, buffer
    {
      Shaped() && p.hash.Valid() && !finished &&
      (p.min < p.max ==> Flatten(sent) + Pending() == input && Explains(p, sent, Pending(), input))
    }

    ghost predicate Valid()
      reads this, buffer
    {
      Consistent() && (p.min < p.max ==> Scanning())
    }

    constructor (p: Params)
      requires p.Valid() && p.hash.Valid()
      ensures Valid() && fresh(buffer) && this.p == p && sent == [] && input == []
    {
      this.p := p;
      buffer := new Byte[2 * p.min](_ => 0);
      bufferStart, bufferSize, minimumReached, hashSum, chunk, sent := 0, 0, false, Zero(), [], [];
      input, finished := [], false;
    }

    method StartNewChunk()
      modifies this`hashSum, this`minimumReached, this`chunk
      ensures hashSum == Zero() && !minimumReached && chunk == []
    {
      hashSum, minimumReached, chunk := Zero(), false, [];
    }

    /** Move data from the buffer to the chunk. */
    method Fill(count: nat)
      requires Shaped() && bufferStart < 2 * p.min && count <= bufferSize
      modifies this`chunk, this`bufferStart, this`bufferSize
      ensures bufferStart < 2 * p.min && bufferSize == old(bufferSize) - count
      ensures chunk == old(chunk) + old(Buffered())[..count]
      ensures Buffered() == old(Buffered())[count..] && Pending() == old(Pending())
    {
      ghost var b, w, c := buffer[..], Buffered(), chunk;
      WindowDrops(b, bufferStart, bufferSize, count);
      if bufferStart + count < buffer.Length {
        chunk := chunk + buffer[bufferStart..bufferStart + count];
        bufferStart := bufferStart + count;
      } else {
        var wrapped := count - (buffer.Length - bufferStart);
        WindowWraps(b, bufferStart, count);
        Associates(chunk, b[bufferStart..], b[..wrapped]);
        chunk := chunk + buffer[bufferStart..];
        chunk := chunk + buffer[..wrapped];
        bufferStart := wrapped;
      }
      bufferSize := bufferSize - count;
      assert chunk == c + w[..count];
      Associates(c, w[..count], w[count..]);
      assert w[..count] + w[count..] == w;
    }

    /** One read into the free part of the buffer that follows the data, up to the end of the array or of the data. */
    method ReadOnce(reader: Reader) returns (got: Bytes, isEOF: bool)
      requires Shaped() && bufferStart < 2 * p.min && bufferSize < 2 * p.min
      modifies reader, buffer, this`bufferSize
      ensures bufferSize <= 2 * p.min
      ensures old(reader.rest) == got + reader.rest && (isEOF ==> reader.rest == [])
      ensures reader.stalls <= old(reader.stalls)
      ensures got == [] && !isEOF ==> reader.stalls < old(reader.stalls)
      ensures Buffered() == old(Buffered()) + got
    {
      var start := bufferStart + bufferSize;
      var room := 2 * p.min - start;
      if start >= 2 * p.min {
        start := start - 2 * p.min;
        room := bufferStart - start;
      }
      ghost var b, r := buffer[..], reader.rest;
      var count, eof := reader.Read(buffer, start, room);
      got, isEOF := buffer[start..start + count], eof;
      assert got == r[..count];
      WindowExtends(b, bufferStart, bufferSize, start, got);
      bufferSize := bufferSize + count;
    }

    /** Read until the buffer is full or the file ends. */
    method Refill(reader: Reader) returns (isEOF: bool, got: Bytes)
      requires Shaped() && bufferStart < 2 * p.min
      modifies reader, buffer, this`bufferSize
      ensures bufferSize <= 2 * p.min && (isEOF || bufferSize == 2 * p.min)
      ensures old(reader.rest) == got + reader.rest && (isEOF ==> reader.rest == [])
      ensures Buffered() == old(Buffered()) + got
    {
      isEOF, got := false, [];
      ghost var w, r := Buffered(), reader.rest;
      while bufferSize < 2 * p.min && !isEOF
        invariant bufferSize <= 2 * p.min && (isEOF ==> reader.rest == [])
        invariant r == got + reader.rest
        invariant Buffered() == w + got
        decreases !isEOF, |reader.rest|, reader.stalls
      {
        ghost var left := reader.rest;
        var more, eof := ReadOnce(reader);
        Associates(w, got, more);
        Associates(got, more, reader.rest);
        assert |left| == |more| + |reader.rest|;
        got, isEOF := got + more, eof;
      }
    }

    /** The hash of the first `min` bytes of the buffer, across the end of the array if need be. */
    method FirstHash() returns (h: Word)
      requires Shaped() && p.hash.Valid() && bufferStart < 2 * p.min && p.min <= bufferSize
      ensures h == p.Hash(Buffered()[..p.min])
    {
      WindowDrops(buffer[..], bufferStart, bufferSize, p.min);
      if bufferStart + p.min < buffer.Length {
        h := p.Hash(buffer[bufferStart..bufferStart + p.min]);
      } else {
        var wrapped := p.min - (buffer.Length - bufferStart);
        WindowWraps(buffer[..], bufferStart, p.min);
        h := p.Hash(buffer[bufferStart..]);
        h := p.hash.sum(h, buffer[..wrapped]);
      }
    }

    /** The byte of the circular buffer `offset` positions into the data. */
    method ByteAt(offset: nat) returns (b: Byte)
      requires Shaped() && bufferStart < 2 * p.min && offset < bufferSize
      ensures b == Buffered()[offset]
    {
      var position := bufferStart + offset;
      if position >= buffer.Length {
        position := position - buffer.Length;
      }
      WindowAt(buffer[..], bufferStart, bufferSize, offset);
      b := buffer[position];
    }

    /** One byte further: the hash of the next window, and whether the chunk ends with it. */
    method Slide(i: nat, sum: Word) returns (next: Word, isEOC: bool)
      requires Shaped() && p.hash.Valid() && bufferStart < 2 * p.min
      requires ScanState(p, chunk, Buffered(), i, sum) && i + p.min < bufferSize
      ensures isEOC ==> FirstBoundary(p, Pending(), |chunk| + (i + 1 + p.min))
      ensures !isEOC ==> ScanState(p, chunk, Buffered(), i + 1, next)
    {
      var maxSize := p.max - |chunk|;
      var out := ByteAt(i);
      var incoming := ByteAt(i + p.min);
      ScanStep(p, chunk, Buffered(), i, sum);
      next := p.hash.update(sum, out, incoming, p.min);
      isEOC := p.hash.hit(next) || i == maxSize - p.min - 1;
    }

    /** Slide the hash over the buffer, one byte at a time, until a boundary or the end of the buffer. */
    method Scan() returns (bytes: nat, isEOC: bool, sum: Word)
      requires Shaped() && p.hash.Valid() && bufferStart < 2 * p.min && minimumReached && Scanning()
      ensures isEOC ==> bytes <= bufferSize && FirstBoundary(p, Pending(), |chunk| + bytes)
      ensures !isEOC ==> bytes == bufferSize - p.min && ScanState(p, chunk, Buffered(), bytes, sum)
    {
      bytes, isEOC, sum := bufferSize - p.min, false, hashSum;
      assert Buffered()[0..0 + p.min] == Buffered()[..p.min];
      var i := 0;
      while i < bufferSize - p.min
        invariant i <= bufferSize - p.min && ScanState(p, chunk, Buffered(), i, sum)
      {
        var next, ends := Slide(i, sum);
        sum := next;
        if ends {
          return i + 1 + p.min, true, sum;
        }
        i := i + 1;
      }
    }

    /** A boundary has been found: send the chunk and start the next one. */
    method Complete(count: nat)
      requires Consistent() && p.min < p.max && count <= bufferSize && FirstBoundary(p, Pending(), |chunk| + count)
      modifies this`chunk, this`bufferStart, this`bufferSize, this`sent, this`hashSum, this`minimumReached
      ensures Valid() && old(sent) <= sent && bufferSize == old(bufferSize) - count
    {
      ghost var pending, w, c, n := Pending(), Buffered(), chunk, |chunk| + count;
      Split(c, w, count);
      ExplainsCut(p, sent, pending, input, n);
      SentGrows(sent, pending, n);
      Fill(count);
      sent := sent + [chunk];
      StartNewChunk();
      assert chunk + Buffered() == w[count..];
    }

    method ReadPiece(reader: Reader) returns (isEOF: bool)
      requires Shaped() && bufferStart == 0
      modifies this`bufferStart, buffer, reader
      ensures bufferStart <= p.min && (isEOF || bufferStart == p.min)
      ensures old(reader.rest) == buffer[..bufferStart] + reader.rest && (isEOF ==> reader.rest == [])
    {
      isEOF := false;
      ghost var r := reader.rest;
      while bufferStart < p.min && !isEOF
        invariant bufferStart <= p.min && (isEOF ==> reader.rest == [])
        invariant r == buffer[..bufferStart] + reader.rest
        decreases !isEOF, |reader.rest|, reader.stalls
      {
        ghost var b, left := buffer[..], reader.rest;
        var count, eof := reader.Read(buffer, bufferStart, p.min - bufferStart);
        assert buffer[..bufferStart + count] == b[..bufferStart] + left[..count];
        isEOF := eof;
        bufferStart := bufferStart + count;
      }
    }

    /** The fixed-size mode: every `min` bytes of the file are a chunk, whatever they are. */
    method AddFixed(reader: Reader) returns (fileSize: nat, fileHash: FileHash)
      requires Valid() && p.min == p.max
      modifies this`bufferStart, this`chunk, this`hashSum, this`minimumReached, this`sent, buffer, reader
      ensures Valid() && reader.rest == []
      ensures fileSize == |old(reader.rest)| && fileHash == FileHash(old(reader.rest))
      ensures sent == old(sent) + Pieces(old(reader.rest), p.min)
    {
      var hashed: Bytes := [];
      var isEOF := false;
      ghost var all := reader.rest;
      while !isEOF
        invariant Shaped() && !finished && all == hashed + reader.rest
        invariant isEOF ==> reader.rest == []
        invariant old(sent) <= sent && old(sent) + Pieces(all, p.min) == sent + Pieces(reader.rest, p.min)
        decreases !isEOF, |reader.rest|
      {
        StartNewChunk();
        bufferStart := 0;
        ghost var r := reader.rest;
        isEOF := ReadPiece(reader);
        assert r == buffer[..bufferStart] + reader.rest;
        Associates(hashed, buffer[..bufferStart], reader.rest);
        if bufferStart > 0 {
          hashed := hashed + buffer[..bufferStart];
          chunk := chunk + buffer[..bufferStart];
          PieceOff(r, p.min, bufferStart);
          assert r[..bufferStart] == chunk && r[bufferStart..] == reader.rest;
          Associates(sent, [chunk], Pieces(reader.rest, p.min));
          sent := sent + [chunk];
        } else {
          assert buffer[..0] + reader.rest == reader.rest;
        }
      }
      fileSize, fileHash := |hashed|, FileHash(hashed);
    }

    /** Read more of the file into the buffer. */
    method Accept(reader: Reader) returns (isEOF: bool, got: Bytes)
      requires Valid() && p.min < p.max
      modifies reader, buffer, this`bufferSize, this`input
      ensures Valid() && input == old(input) + got && (isEOF || bufferSize == 2 * p.min)
      ensures old(reader.rest) == got + reader.rest && (isEOF ==> reader.rest == [])
    {
      ghost var w, pending := Buffered(), Pending();
      isEOF, got := Refill(reader);
      Associates(chunk, w, got);
      ExplainsRead(p, sent, pending, input, got);
      Associates(Flatten(sent), pending, got);
      input := input + got;
      assert minimumReached ==> NoBoundary(p, Pending(), |chunk| + p.min) by {
        if minimumReached { NoBoundaryPrefix(p, pending, got, |chunk| + p.min); }
      }
      assert minimumReached ==> Buffered()[..p.min] == w[..p.min];
    }

    /** The hash of a new chunk; `sentMinimum` if the chunk ends right there. */
    method Begin() returns (sentMinimum: bool)
      requires Valid() && p.min < p.max && p.min <= bufferSize
      modifies this`chunk, this`bufferStart, this`bufferSize, this`sent, this`hashSum, this`minimumReached
      ensures Valid() && old(sent) <= sent
      ensures if sentMinimum then bufferSize < old(bufferSize) else minimumReached && bufferSize == old(bufferSize)
    {
      sentMinimum := false;
      if !minimumReached {
        assert Pending() == Buffered();
        hashSum := FirstHash();
        FirstWindow(p, Buffered(), hashSum);
        if p.hash.hit(hashSum) {
          sentMinimum := true;
          Complete(p.min);
        } else {
          minimumReached := true;
        }
      }
    }

    /** No boundary in the buffer: keep its last `min` bytes, whose hash is at hand. */
    method Advance(bytes: nat, sum: Word)
      requires Valid() && p.min < p.max && minimumReached && bytes == bufferSize - p.min
      requires ScanState(p, chunk, Buffered(), bytes, sum)
      modifies this`chunk, this`bufferStart, this`bufferSize, this`hashSum
      ensures Valid() && bufferSize == p.min && NoBoundary(p, Pending(), |Pending()|)
    {
      ghost var w := Buffered();
      hashSum := sum;
      Fill(bytes);
      assert Buffered()[..p.min] == w[bytes..bytes + p.min];
    }

    /** One pass over a buffer holding at least the minimum: send one chunk, or move all but the last `min` bytes. */
    method Round() returns (round: RoundResult)
      requires Valid() && p.min < p.max && p.min <= bufferSize
      modifies this`chunk, this`bufferStart, this`bufferSize, this`sent, this`hashSum, this`minimumReached
      ensures Valid() && old(sent) <= sent
      ensures if round.Nowhere? then bufferSize == p.min && NoBoundary(p, Pending(), |Pending()|)
              else bufferSize < old(bufferSize)
    {
      var sentMinimum := Begin();
      if sentMinimum { return AtMinimum; }
      var bytes, isEOC, sum := Scan();
      if isEOC {
        Complete(bytes);
        round := Inside;
      } else {
        Advance(bytes, sum);
        round := Nowhere;
      }
    }

    /** The end of the stream: what is left is the last chunk, unless nothing is left. */
    method Flush(count: nat)
      requires Valid() && p.min < p.max && count == bufferSize
      requires NoBoundary(p, Pending(), |Pending()|)
      modifies this`chunk, this`bufferStart, this`bufferSize, this`sent, this`finished
      ensures finished && sent == ChunksOf(p, input) && old(sent) <= sent
    {
      ghost var pending := Pending();
      Fill(count);
      assert chunk == pending;
      assert pending + [] == pending && input + [] == input;
      assert ChunksOf(p, input + []) == sent + ChunksOf(p, pending + []);
      if |chunk| > 0 {
        NoCut(p, pending);
        sent := sent + [chunk];
      }
      finished := true;
    }

    /** Read what fits, then at most one chunk's worth of scanning. */
    method FileRound(reader: Reader, wasEOF: bool) returns (isEOF: bool, got: Bytes, done: bool)
      requires Valid() && p.min < p.max && (wasEOF ==> reader.rest == [])
      modifies this, buffer, reader
      ensures Valid() && old(sent) <= sent && input == old(input) + got
      ensures old(reader.rest) == got + reader.rest && (isEOF ==> reader.rest == []) && (wasEOF ==> isEOF)
      ensures done ==> isEOF
      ensures !done ==> |reader.rest| < |old(reader.rest)| || (isEOF && !wasEOF) || bufferSize < old(bufferSize)
    {
      isEOF, got := wasEOF, [];
      if !isEOF {
        isEOF, got := Accept(reader);
      }
      if bufferSize < p.min {
        return isEOF, got, true;
      }
      var round := Round();
      done := !round.AtMinimum? && isEOF;
    }

    /** The content-defined mode for one file. */
    method AddFile(reader: Reader) returns (hashed: Bytes)
      requires Valid() && p.min < p.max
      modifies this, buffer, reader
      ensures Valid() && old(sent) <= sent && reader.rest == []
      ensures hashed == old(reader.rest) && input == old(input) + hashed
    {
      var isEOF, done := false, false;
      hashed := [];
      ghost var r, before := reader.rest, input;
      while !done
        invariant Valid() && old(sent) <= sent && (isEOF ==> reader.rest == []) && (done ==> isEOF)
        invariant r == hashed + reader.rest && input == before + hashed
        decreases !done, |reader.rest|, !isEOF, bufferSize
      {
        var eof, got, over := FileRound(reader, isEOF);
        Associates(hashed, got, reader.rest);
        Associates(before, hashed, got);
        isEOF, hashed, done := eof, hashed + got, over;
      }
    }

    /** The content-defined mode at the end of the stream. */
    method Finish()
      requires Valid() && p.min < p.max
      modifies this
      ensures finished && old(sent) <= sent && input == old(input) && sent == ChunksOf(p, input)
    {
      var nowhere := false;
      while bufferSize >= p.min && !nowhere
        invariant Valid() && old(sent) <= sent && input == old(input)
        invariant nowhere ==> bufferSize == p.min && NoBoundary(p, Pending(), |Pending()|)
        decreases !nowhere, bufferSize
      {
        var round := Round();
        nowhere := round.Nowhere?;
      }
      Flush(bufferSize);
      if nowhere {
        StartNewChunk();
      }
    }

    /** Feed one file, or `null` to flush the stream. */
    method AddData(reader: Reader?) returns (fileSize: nat, fileHash: Option<FileHash>)
      requires Valid()
      modifies this, buffer, reader
      ensures old(sent) <= sent
      ensures reader != null ==> Valid() && reader.rest == [] && input == old(input) + old(reader.rest)
      ensures reader != null ==> fileSize == |old(reader.rest)| && fileHash == Some(FileHash(old(reader.rest)))
      ensures reader == null ==> fileSize == 0 && fileHash == None && input == old(input)
      ensures reader == null && p.min < p.max ==> finished && sent == ChunksOf(p, input)
      ensures reader == null && p.min < p.max ==> forall table, mask :: p.hash == BuzhashOf(table, mask) ==>
        AllEndRight(table, mask, p.min, p.max, sent)
      ensures p.min == p.max ==>
        sent == old(sent) + if reader == null then [] else Pieces(old(reader.rest), p.min)
    {
      if p.min == p.max {
        if reader == null { return 0, None; }
        ghost var all := reader.rest;
        var size, hash := AddFixed(reader);
        input := input + all;
        return size, Some(hash);
      }
      if reader == null {
        Finish();
        forall table, mask | p.hash == BuzhashOf(table, mask) ensures AllEndRight(table, mask, p.min, p.max, sent) {
          assert p == Params(p.min, p.max, BuzhashOf(table, mask));
          ChunksEndRight(table, mask, p.min, p.max, input);
        }
        return 0, None;
      }
      var hashed := AddFile(reader);
      return |hashed|, Some(FileHash(hashed));
    }
  }

  /** Whatever follows, the chunks of the stream are those sent and then those of what is pending. */
  ghost predicate Explains(p: Params, sent: seq<Bytes>, pending: Bytes, input: Bytes)
    requires p.Valid()
  {
    forall t: Bytes :: ChunksOf(p, input + t) == sent + ChunksOf(p, pending + t)
  }

  lemma ExplainsRead(p: Params, sent: seq<Bytes>, pending: Bytes, input: Bytes, got: Bytes)
    requires p.Valid() && Explains(p, sent, pending, input)
    ensures Explains(p, sent, pending + got, input + got)
  {
    forall t: Bytes ensures ChunksOf(p, input + got + t) == sent + ChunksOf(p, pending + got + t) {
      Associates(input, got, t);
      Associates(pending, got, t);
      assert ChunksOf(p, input + (got + t)) == sent + ChunksOf(p, pending + (got + t));
    }
  }

  lemma ExplainsCut(p: Params, sent: seq<Bytes>, pending: Bytes, input: Bytes, n: nat)
    requires p.Valid() && Explains(p, sent, pending, input)
    requires FirstBoundary(p, pending, n)
    ensures Explains(p, sent + [pending[..n]], pending[n..], input)
  {
    forall t: Bytes ensures ChunksOf(p, input + t) == sent + [pending[..n]] + ChunksOf(p, pending[n..] + t) {
      CutFound(p, pending, t, n);
      assert sent + ([pending[..n]] + ChunksOf(p, pending[n..] + t)) ==
             sent + [pending[..n]] + ChunksOf(p, pending[n..] + t);
    }
  }

  /** The hash of the next window. */
  lemma SlideSum(p: Params, w: Bytes, i: nat)
    requires p.Valid() && p.hash.Valid() && i + p.min < |w|
    ensures p.hash.update(p.Hash(w[i..i + p.min]), w[i], w[i + p.min], p.min) ==
            p.Hash(w[i + 1..i + 1 + p.min])
  {
    var v := w[i..i + p.min];
    assert v[0] == w[i] && |v| == p.min;
    assert v[1..] + [w[i + p.min]] == w[i + 1..i + 1 + p.min];
  }

  lemma SliceAfter(chunk: Bytes, w: Bytes, i: nat, n: nat)
    requires i + n <= |w|
    ensures (chunk + w)[|chunk| + i..|chunk| + i + n] == w[i..i + n]
  {
  }

  /** Whether the chunk may end with the window at `i` of the buffer. */
  lemma SlideBoundary(p: Params, chunk: Bytes, w: Bytes, i: nat)
    requires p.Valid() && i + p.min <= |w|
    ensures Boundary(p, chunk + w, |chunk| + i + p.min) <==>
            |chunk| + i + p.min == p.max || p.hash.hit(p.Hash(w[i..i + p.min]))
  {
    var n := |chunk| + i + p.min;
    assert (chunk + w)[n - p.min..n] == w[i..i + p.min] by { SliceAfter(chunk, w, i, p.min); }
  }

  lemma FirstWindow(p: Params, w: Bytes, sum: Word)
    requires p.Valid() && p.min < p.max && p.min <= |w| && sum == p.Hash(w[..p.min])
    ensures if p.hash.hit(sum) then FirstBoundary(p, w, p.min) else NoBoundary(p, w, p.min)
  {
    assert w[p.min - p.min..p.min] == w[..p.min];
  }

  /** After `i` slides: the hash of the window at `i`, and no boundary up to its end. */
  ghost predicate ScanState(p: Params, chunk: Bytes, w: Bytes, i: nat, sum: Word) {
    p.Valid() && i + p.min <= |w| && |chunk| + i + p.min < p.max &&
    sum == p.Hash(w[i..i + p.min]) && NoBoundary(p, chunk + w, |chunk| + i + p.min)
  }

  lemma ScanStep(p: Params, chunk: Bytes, w: Bytes, i: nat, sum: Word)
    requires p.hash.Valid() && ScanState(p, chunk, w, i, sum) && i + p.min < |w|
    ensures var next := p.hash.update(sum, w[i], w[i + p.min], p.min);
      var n := |chunk| + i + 1 + p.min;
      if p.hash.hit(next) || n == p.max then FirstBoundary(p, chunk + w, n) else ScanState(p, chunk, w, i + 1, next)
  {
    SlideSum(p, w, i);
    SlideBoundary(p, chunk, w, i + 1);
  }

  lemma Split(c: Bytes, w: Bytes, count: nat)
    requires count <= |w|
    ensures (c + w)[..|c| + count] == c + w[..count] && (c + w)[|c| + count..] == w[count..]
  {
  }

  lemma SentGrows(sent: seq<Bytes>, pending: Bytes, n: nat)
    requires n <= |pending|
    ensures Flatten(sent + [pending[..n]]) + pending[n..] == Flatten(sent) + pending
  {
    FlattenAppend(sent, [pending[..n]]);
    FlattenOne(pending[..n]);
    assert pending == pending[..n] + pending[n..];
  }

  lemma PieceOff(s: Bytes, size: nat, n: nat)
    requires 0 < n <= size && n <= |s| && (n == size || n == |s|)
    ensures Pieces(s, size) == [s[..n]] + Pieces(s[n..], size)
  {
    if n == |s| { assert s[..n] == s; }
  }
}
