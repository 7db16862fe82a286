/** Splitting a byte stream into lines, and reading one capped line from a buffered source. */
module Lines {
  import opened Wrappers

  const NEWLINE: byte := 10

  function Position(s: seq<byte>): (r: Option<nat>)
    ensures r.Some? ==> r.value < |s| && s[r.value] == NEWLINE && NEWLINE !in s[..r.value]
    ensures r.None? ==> NEWLINE !in s
  {
    if s == [] then None
    else if s[0] == NEWLINE then Some(0)
    else match Position(s[1..])
      case Some(p) => assert s[..p + 1] == [s[0]] + s[1..][..p]; Some(p + 1)
      case None => assert s == [s[0]] + s[1..]; None
  }

  /** Everything up to and including the first newline, or all of it if there is none. */
  function FirstLine(s: seq<byte>): (r: seq<byte>)
    ensures r <= s && (s != [] ==> r != [])
  {
    match Position(s) case Some(p) => s[..p + 1] case None => s
  }

  function Split(s: seq<byte>): seq<seq<byte>> {
    if s == [] then [] else [FirstLine(s)] + Split(s[|FirstLine(s)|..])
  }

  function Flatten(pieces: seq<seq<byte>>): seq<byte> {
    if pieces == [] then [] else pieces[0] + Flatten(pieces[1..])
  }

  lemma FirstLineIs(s: seq<byte>, n: nat)
    requires n < |s| && s[n] == NEWLINE && NEWLINE !in s[..n]
    ensures FirstLine(s) == s[..n + 1]
  {
  }

  /** Bytes without a newline only lengthen the line that follows them. */
  lemma FirstLineAfter(a: seq<byte>, b: seq<byte>)
    requires NEWLINE !in a
    ensures FirstLine(a + b) == a + FirstLine(b)
  {
    match Position(b)
    case Some(p) =>
      assert (a + b)[..|a| + p] == a + b[..p];
      FirstLineIs(a + b, |a| + p);
    case None =>
  }

  lemma FirstLineWithin(a: seq<byte>, b: seq<byte>)
    requires NEWLINE in a
    ensures FirstLine(a + b) == FirstLine(a)
  {
  }

  lemma {:induction false} FlattenConcat(a: seq<seq<byte>>, b: seq<seq<byte>>)
    ensures Flatten(a + b) == Flatten(a) + Flatten(b)
  {
    if a == [] {
      assert a + b == b;
    } else {
      assert (a + b)[0] == a[0] && (a + b)[1..] == a[1..] + b;
      FlattenConcat(a[1..], b);
    }
  }

  lemma FlattenOne(piece: seq<byte>)
    ensures Flatten([piece]) == piece
  {
  }

  /** The lines put back together are the stream. */
  lemma {:induction false} FlattenSplit(s: seq<byte>)
    ensures Flatten(Split(s)) == s
  {
    if s != [] {
      var line := FirstLine(s);
      FlattenSplit(s[|line|..]);
      var ls := Split(s);
      assert ls[1..] == Split(s[|line|..]);
    }
  }

  lemma SplitUnterminated(s: seq<byte>)
    requires s != [] && NEWLINE !in s
    ensures Split(s) == [s]
  {
  }
}

module LineReader {
  import opened Wrappers
  import opened Lines

  const MAX_LINE_SIZE := 64 * 1024 * 1024

  datatype IoError = InvalidData | SourceFailed(code: int)

  datatype ReadResult = Ok(n: nat) | Err(error: IoError)

  /** A buffered reader over a source that yields non-empty chunks and then ends or fails. */
  class BufferedSource {
    var available: seq<byte>
    var chunks: seq<seq<byte>>
    const failure: Option<int>

    ghost predicate Valid(chunkSize: nat)
      reads this
    {
      |available| <= chunkSize && forall c | c in chunks :: 0 < |c| <= chunkSize
    }

    ghost function Remaining(): seq<byte>
      reads this
    {
      available + Flatten(chunks)
    }

    constructor (chunks: seq<seq<byte>>, failure: Option<int>, ghost chunkSize: nat)
      requires forall c | c in chunks :: 0 < |c| <= chunkSize
      ensures Valid(chunkSize) && Remaining() == Flatten(chunks) && this.failure == failure
    {
      this.available, this.chunks, this.failure := [], chunks, failure;
    }

    /** Fetches the next chunk if the last one is used up; afterwards nothing is available only at the end. */
    method FillBuf(ghost chunkSize: nat)
      requires Valid(chunkSize)
      modifies this
      ensures Valid(chunkSize) && Remaining() == old(Remaining())
      ensures available == [] ==> Remaining() == []
    {
      if available == [] && chunks != [] {
        assert chunks[0] in chunks;
        available := chunks[0];
        chunks := chunks[1..];
      }
    }

    method Consume(n: nat, ghost chunkSize: nat)
      requires Valid(chunkSize) && n <= |available|
      modifies this
      ensures Valid(chunkSize) && Remaining() == old(Remaining())[n..]
      ensures available == old(available)[n..]
    {
      available := available[n..];
    }
  }

  /** Fills the buffer once and takes from it up to and including a newline, or all of it. */
  method TakeAvailable(reader: BufferedSource, ghost chunkSize: nat) returns (piece: seq<byte>, done: bool)
    requires reader.Valid(chunkSize)
    modifies reader
    ensures reader.Valid(chunkSize) && old(reader.Remaining()) == piece + reader.Remaining()
    ensures |piece| <= chunkSize && (piece == [] ==> old(reader.Remaining()) == [])
    ensures if done then piece == FirstLine(old(reader.Remaining())) && NEWLINE in piece else NEWLINE !in piece
  {
    hide Flatten;
    reader.FillBuf(chunkSize);
    var available := reader.available;
    ghost var later := Flatten(reader.chunks);
    var found := Position(available);
    done := found.Some?;
    var consumed := if done then found.value + 1 else |available|;
    piece := available[..consumed];
    if done {
      assert piece[found.value] == NEWLINE;
      FirstLineWithin(available, later);
    }
    reader.Consume(consumed, chunkSize);
    assert available + later == piece + (available + later)[consumed..];
  }

  /** What reading one line off these bytes gives: its length, or the error that ends the stream. */
  function LineOutcome(all: seq<byte>, failure: Option<int>): ReadResult {
    if |FirstLine(all)| > MAX_LINE_SIZE then Err(InvalidData)
    else if NEWLINE !in all && failure.Some? then Err(SourceFailed(failure.value))
    else Ok(|FirstLine(all)|)
  }

  /**
   Reads one line, however the source chunks its bytes: the first line of what remains
   if it is within the cap, and then exactly that line is consumed.
   */
  method ReadLineCapped(reader: BufferedSource, ghost chunkSize: nat) returns (buf: seq<byte>, r: ReadResult)
    requires reader.Valid(chunkSize)
    modifies reader
    ensures reader.Valid(chunkSize) && |buf| <= MAX_LINE_SIZE + chunkSize
    ensures var all := old(reader.Remaining());
            && r == LineOutcome(all, reader.failure) && (|FirstLine(all)| > 64 * 1024 * 1024 ==> r == Err(InvalidData))
            && (r.Ok? ==> buf == FirstLine(all) && reader.Remaining() == all[|buf|..])
  {
    hide FirstLine;
    ghost var all := reader.Remaining();
    buf := [];
    while true
      invariant reader.Valid(chunkSize) && buf + reader.Remaining() == all
      invariant NEWLINE !in buf && |buf| <= MAX_LINE_SIZE
      decreases |reader.Remaining()|
    {
      ghost var rest := reader.Remaining();
      var piece, done := TakeAvailable(reader, chunkSize);
      FirstLineOfRest(buf, rest, piece, done);
      if piece == [] {
        assert buf == all && all[|buf|..] == [];
        return buf, if reader.failure.Some? then Err(SourceFailed(reader.failure.value)) else Ok(|buf|);
      }
      buf := buf + piece;
      assert all == buf + reader.Remaining();
      assert all[|buf|..] == reader.Remaining();
      if |buf| > MAX_LINE_SIZE {
        return buf, Err(InvalidData);
      }
      if done {
        return buf, Ok(|buf|);
      }
    }
  }

  /** What one buffer fill tells about the line being read. */
  lemma FirstLineOfRest(buf: seq<byte>, rest: seq<byte>, piece: seq<byte>, done: bool)
    requires NEWLINE !in buf && piece <= rest && (piece == [] ==> rest == [])
    requires if done then piece == FirstLine(rest) && NEWLINE in piece else NEWLINE !in piece
    ensures done ==> FirstLine(buf + rest) == buf + piece && NEWLINE in buf + rest
    ensures !done ==> NEWLINE !in buf + piece && buf + piece <= FirstLine(buf + rest)
    ensures piece == [] ==> NEWLINE !in buf + rest && FirstLine(buf + rest) == buf
  {
    FirstLineAfter(buf, rest);
    if !done {
      assert rest == piece + rest[|piece|..];
      FirstLineAfter(piece, rest[|piece|..]);
    }
  }
}
