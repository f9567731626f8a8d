/** Downloading one chunk from several locations, resuming a partial file, and admitting it to the cache. */
module ChunkDownload {
  import opened Common
  import opened Eviction
  import opened Manifests
  import Cache = ChunkCache

  /** A server's answer: status, the start of its range if it names one, announced length, body reads, and a break. */
  datatype Response =
    Response(status: nat, rangeStart: Option<nat>, contentLength: Option<nat>, pieces: seq<Bytes>, interrupted: bool)

  /** The exceptions the retry loop tells apart: only the last kind makes it drop the partial file. */
  datatype Failure = HttpFailure | IoFailure | InvalidData

  /** What a location answers to a request, given how many requests came before and the offset asked for. */
  type Server = (string, nat, nat) -> Response

  /** The bytes of a body that are accepted: whole reads, up to the first that would pass the room left. */
  function Accepted(room: nat, pieces: seq<Bytes>): Bytes {
    if pieces == [] || |pieces[0]| > room then [] else pieces[0] + Accepted(room - |pieces[0]|, pieces[1..])
  }

  predicate Overflows(room: nat, pieces: seq<Bytes>) {
    pieces != [] && (|pieces[0]| > room || Overflows(room - |pieces[0]|, pieces[1..]))
  }

  predicate Succeeds(r: Response) {
    200 <= r.status <= 299
  }

  predicate Appends(r: Response, offset: nat) {
    offset > 0 && r.status == 206 && r.rangeStart == Some(offset)
  }

  predicate AnnouncesTooMuch(r: Response, room: nat) {
    r.contentLength.Some? && r.contentLength.value > room
  }

  /** What is on disk after a successful answer to a request that had `kept` on disk, before the size is checked. */
  function AfterBody(kept: Bytes, size: nat, r: Response): Bytes
    requires |kept| <= size
  {
    var base := if Appends(r, |kept|) then kept else [];
    if AnnouncesTooMuch(r, size - |base|) then base else base + Accepted(size - |base|, r.pieces)
  }

  // ---- Honest servers.

  /** The body is made of the chunk's bytes from this start on. */
  ghost predicate TrueBytesFrom(content: Bytes, r: Response, start: nat) {
    start <= |content| && Flatten(r.pieces) <= content[start..]
  }

  /** The body is made of true bytes, from the start the answer names, or from the beginning. */
  ghost predicate TrueBytes(content: Bytes, r: Response) {
    Succeeds(r) ==> TrueBytesFrom(content, r, if r.status == 206 && r.rangeStart.Some? then r.rangeStart.value else 0)
  }

  /** A partial answer starts where it was asked to. */
  predicate AnswersOffset(r: Response, offset: nat) {
    r.status == 206 ==> r.rangeStart == Some(offset)
  }

  lemma {:induction false} AcceptedIsPrefix(room: nat, pieces: seq<Bytes>)
    ensures |Accepted(room, pieces)| <= room && Accepted(room, pieces) <= Flatten(pieces)
    ensures !Overflows(room, pieces) ==> Accepted(room, pieces) == Flatten(pieces)
  {
    if pieces != [] && |pieces[0]| <= room {
      AcceptedIsPrefix(room - |pieces[0]|, pieces[1..]);
    }
  }

  lemma AcceptOne(room: nat, pieces: seq<Bytes>)
    requires pieces != []
    ensures Overflows(room, pieces) == (|pieces[0]| > room || Overflows(room - |pieces[0]|, pieces[1..]))
    ensures Accepted(room, pieces) ==
              if |pieces[0]| > room then [] else pieces[0] + Accepted(room - |pieces[0]|, pieces[1..])
  {
  }

  lemma AcceptNone(room: nat)
    ensures Accepted(room, []) == [] && !Overflows(room, [])
  {
  }

  lemma AcceptedStep(taken: Bytes, piece: Bytes, rest: Bytes)
    ensures taken + (piece + rest) == taken + piece + rest
  {
  }

  lemma AfterBodyFits(kept: Bytes, size: nat, r: Response)
    requires |kept| <= size
    ensures |AfterBody(kept, size, r)| <= size
  {
    var base := if Appends(r, |kept|) then kept else [];
    AcceptedIsPrefix(size - |base|, r.pieces);
  }

  /** With true bytes for the requested offset, a prefix stays a prefix, however the transfer ends. */
  lemma PrefixStays(content: Bytes, kept: Bytes, r: Response)
    requires kept <= content && Succeeds(r) && TrueBytes(content, r) && AnswersOffset(r, |kept|)
    ensures AfterBody(kept, |content|, r) <= content
  {
    var base := if Appends(r, |kept|) then kept else [];
    var taken := Accepted(|content| - |base|, r.pieces);
    AcceptedIsPrefix(|content| - |base|, r.pieces);
    assert taken <= content[|base|..];
    PrefixAppended(content, base, taken);
    assert base <= content;
  }

  lemma PrefixAppended(content: Bytes, base: Bytes, taken: Bytes)
    requires base <= content && taken <= content[|base|..]
    ensures base + taken <= content
  {
    assert content == base + content[|base|..];
  }

  /**
   * Any answer that does not name the offset asked for is taken for the beginning, wherever its bytes are from:
   * another offset, or the right one in a partial answer that names none. What it leaves is a prefix of the chunk
   * exactly when nothing is taken or the bytes taken happen to be the first ones.
   */
  lemma WrongRangeIff(content: Bytes, kept: Bytes, r: Response, start: nat)
    requires kept <= content && Succeeds(r) && TrueBytesFrom(content, r, start) && !Appends(r, |kept|)
    ensures
      var taken := Accepted(|content|, r.pieces);
      && taken <= content[start..]
      && (AfterBody(kept, |content|, r) <= content <==> AnnouncesTooMuch(r, |content|) || taken == content[..|taken|])
  {
    hide Accepted, Flatten;
    var taken := Accepted(|content|, r.pieces);
    AcceptedIsPrefix(|content|, r.pieces);
    assert [] + taken == taken;
  }

  /** The right bytes at the right offset, without the header that says so. */
  lemma UnnamedRangeExample()
    ensures
      var content: Bytes := [7, 8, 9];
      var r := Response(206, None, None, [[8, 9]], true);
      && TrueBytesFrom(content, r, 1) && !(AfterBody([7], 3, r) <= content)
  {
    var r := Response(206, None, None, [[8, 9]], true);
    var content: Bytes := [7, 8, 9];
    assert r.pieces[1..] == [];
    assert Flatten(r.pieces) == [8, 9] + Flatten([]);
    assert content[1..] == [8, 9];
    assert AfterBody([7], 3, r) == [] + ([8, 9] + Accepted(1, []));
    assert AfterBody([7], 3, r)[0] == 8;
  }

  /**
   * Whether such an answer is harmless for every chunk whose bytes it sends shows in the answer: it starts at the
   * beginning, or nothing of it is taken.
   */
  lemma WrongStartIff(kept: Bytes, size: nat, r: Response, start: nat)
    requires |kept| <= size && Succeeds(r) && !Appends(r, |kept|) && !AnnouncesTooMuch(r, size)
    requires start + |Flatten(r.pieces)| <= size
    ensures (forall content: Bytes | |content| == size && TrueBytesFrom(content, r, start) ::
          AfterBody(kept, size, r) <= content)
            <==> start == 0 || Accepted(size, r.pieces) == []
  {
    var sent, taken := Flatten(r.pieces), Accepted(size, r.pieces);
    AcceptedIsPrefix(size, r.pieces);
    assert AfterBody(kept, size, r) == [] + taken == taken;
    if start == 0 || taken == [] {
      forall content: Bytes | |content| == size && TrueBytesFrom(content, r, start) ensures taken <= content {
        assert content[0..] == content;
      }
    } else {
      var content := ChunkStartingOtherwise(size, sent, start, taken[0]);
      assert content[0] != taken[0];
      assert !(taken <= content);
    }
  }

  /** A chunk with these bytes at this place that begins with another byte. */
  lemma ChunkStartingOtherwise(size: nat, sent: Bytes, start: nat, other: Byte) returns (content: Bytes)
    requires 0 < start && start + |sent| <= size
    ensures |content| == size && sent <= content[start..] && content[0] != other
  {
    var filler: Byte := if other == 0 then 1 else 0;
    content := seq(size, i => if start <= i < start + |sent| then sent[i - start] else filler);
    assert forall i | 0 <= i < |sent| :: content[start..][i] == sent[i];
    assert content[start..][..|sent|] == sent;
  }

  lemma WrongRangeExample()
    ensures
      var content: Bytes := [7, 8, 9];
      var r := Response(206, Some(2), None, [[9]], true);
      && TrueBytes(content, r) && !AnswersOffset(r, 1) && !(AfterBody([7], 3, r) <= content)
  {
    var r := Response(206, Some(2), None, [[9]], true);
    var content: Bytes := [7, 8, 9];
    assert r.pieces[1..] == [];
    assert Flatten(r.pieces) == [9] + Flatten([]);
    assert content[2..] == [9];
    assert AfterBody([7], 3, r) == [] + ([9] + Accepted(2, []));
    assert AfterBody([7], 3, r)[0] == 9;
  }

  /** The answer brings the whole rest of the chunk, in one piece or many. */
  ghost predicate FullAnswer(content: Bytes, r: Response, offset: nat) {
    && Succeeds(r) && !r.interrupted && offset <= |content| && Flatten(r.pieces) == content[offset..]
    && (offset > 0 ==> Appends(r, offset))
    && !AnnouncesTooMuch(r, |content| - offset)
  }

  lemma FullAnswerSucceeds(content: Bytes, r: Response, offset: nat)
    requires FullAnswer(content, r, offset)
    ensures Succeeds(r)
  {
  }

  lemma {:induction false} FittingBodyIsTaken(room: nat, pieces: seq<Bytes>)
    requires |Flatten(pieces)| <= room
    ensures !Overflows(room, pieces) && Accepted(room, pieces) == Flatten(pieces)
  {
    if pieces == [] {
    } else {
      FittingBodyIsTaken(room - |pieces[0]|, pieces[1..]);
    }
  }

  /** Such an answer always brings the right size, and the right bytes exactly when it continues a true beginning. */
  lemma FullAnswerCompletes(content: Bytes, kept: Bytes, r: Response)
    requires |kept| <= |content| && FullAnswer(content, r, |kept|)
    ensures BodyArrives(kept, |content|, r)
    ensures AfterBody(kept, |content|, r) == content <==> kept <= content
  {
    FittingBodyIsTaken(|content| - |kept|, r.pieces);
    assert content == content[..|kept|] + content[|kept|..];
    assert (kept + content[|kept|..])[..|kept|] == kept;
  }

  /** The transfer ends in the right size: no overflow, no interruption. */
  predicate BodyArrives(kept: Bytes, size: nat, r: Response)
    requires |kept| <= size
  {
    var room := size - (if Appends(r, |kept|) then |kept| else 0);
    && !AnnouncesTooMuch(r, room) && !Overflows(room, r.pieces) && !r.interrupted
    && |AfterBody(kept, size, r)| == size
  }

  // ---- How an answer turns out.

  /** The connection breaks while everything read so far was acceptable. */
  predicate BreaksOff(kept: Bytes, size: nat, r: Response)
    requires |kept| <= size
  {
    var room := size - (if Appends(r, |kept|) then |kept| else 0);
    !AnnouncesTooMuch(r, room) && !Overflows(room, r.pieces) && r.interrupted
  }

  /** How one answer to a request that had `kept` on disk is reported, and what it leaves on disk. */
  ghost predicate TurnsOut(hash: Bytes -> string, chunk: ChunkRef, kept: Bytes, r: Response, end: Result<nat, Failure>,
                           disk: Bytes)
    requires |kept| <= chunk.encodedSize
  {
    if r.status == 416 then end == Err(HttpFailure) && disk == []
    else if !(200 <= r.status <= 299) then end == Err(HttpFailure) && disk == kept
    else
      var after := AfterBody(kept, chunk.encodedSize, r);
      if BodyArrives(kept, chunk.encodedSize, r) && hash(after) == chunk.encodedHash
      then end == Ok(|after| - (if Appends(r, |kept|) then |kept| else 0)) && disk == []
      else disk == after && end == Err(if BreaksOff(kept, chunk.encodedSize, r) then IoFailure else InvalidData)
  }

  /**
   * The same for a successful answer, said of its whole body: it is added to what was on disk only in a partial answer
   * that names the offset asked for, and it succeeds only as exactly the bytes that were missing.
   */
  lemma BodyTurnsOut(hash: Bytes -> string, chunk: ChunkRef, kept: Bytes, r: Response, end: Result<nat, Failure>,
                     disk: Bytes)
    requires |kept| < chunk.encodedSize && TurnsOut(hash, chunk, kept, r, end, disk) && 200 <= r.status <= 299
    ensures
      var base := if kept != [] && r.status == 206 && r.rangeStart == Some(|kept|) then kept else [];
      var room, body := chunk.encodedSize - |base|, Flatten(r.pieces);
      var fits := (r.contentLength.Some? ==> r.contentLength.value <= room) && |body| <= room;
      && (end.Ok? <==> fits && |body| == room && !r.interrupted && hash(base + body) == chunk.encodedHash)
      && (end.Ok? ==> end.value == |body|)
      && (end == Err(IoFailure) <==> fits && r.interrupted)
      && (end.Err? ==> base <= disk <= base + body && end.error != HttpFailure)
      && (end.Err? && fits ==> disk == base + body)
      && (r.contentLength.Some? && r.contentLength.value > room ==> disk == base)
  {
    hide Accepted, Overflows, Flatten;
    var base := if kept != [] && r.status == 206 && r.rangeStart == Some(|kept|) then kept else [];
    var room, body := chunk.encodedSize - |base|, Flatten(r.pieces);
    assert base == if Appends(r, |kept|) then kept else [];
    AcceptedIsPrefix(room, r.pieces);
    if |body| <= room {
      FittingBodyIsTaken(room, r.pieces);
    }
    assert base + body == base + Accepted(room, r.pieces) + body[|Accepted(room, r.pieces)|..];
  }

  /**
   * The chunk's bytes from the offset asked for, all that is missing or as many as come before the connection
   * breaks; or a refusal that does not condemn the partial file.
   */
  ghost predicate Continues(content: Bytes, r: Response, offset: nat)
    requires offset <= |content|
  {
    && r.status != 416
    && (200 <= r.status <= 299 ==>
          && (offset > 0 ==> r.status == 206 && r.rangeStart == Some(offset))
          && (r.contentLength.Some? ==> r.contentLength.value <= |content| - offset)
          && Flatten(r.pieces) <= content[offset..]
          && (r.interrupted || Flatten(r.pieces) == content[offset..]))
  }

  /** From such an answer the partial file only grows, by exactly the bytes that came. */
  lemma ContinuedOrComplete(hash: Bytes -> string, chunk: ChunkRef, content: Bytes, kept: Bytes, r: Response,
                            end: Result<nat, Failure>, disk: Bytes)
    requires |content| == chunk.encodedSize && hash(content) == chunk.encodedHash && kept <= content
    requires Continues(content, r, |kept|) && TurnsOut(hash, chunk, kept, r, end, disk)
    ensures end.Err? ==> kept <= disk <= content && end.error != InvalidData
    ensures end.Err? ==> disk == if 200 <= r.status <= 299 then kept + Flatten(r.pieces) else kept
    ensures end.Ok? ==> end.value == |content| - |kept|
  {
    if 200 <= r.status <= 299 {
      var sent := Flatten(r.pieces);
      assert content == kept + content[|kept|..];
      assert kept == [] ==> [] + sent == sent;
      FittingBodyIsTaken(|content| - |kept|, r.pieces);
      assert AfterBody(kept, |content|, r) == kept + sent;
      PrefixAppended(content, kept, sent);
    }
  }

  /**
   * Exactly when a failure that does not condemn the partial file leaves all that was on disk: no 416, and a body
   * that does not continue it has already brought as much again. Both are beginnings of the chunk.
   */
  lemma KeepsPartialIff(hash: Bytes -> string, chunk: ChunkRef, content: Bytes, kept: Bytes, r: Response,
                        end: Result<nat, Failure>, disk: Bytes)
    requires |content| == chunk.encodedSize && kept <= content && kept != []
    requires Succeeds(r) ==> TrueBytes(content, r) && AnswersOffset(r, |kept|)
    requires TurnsOut(hash, chunk, kept, r, end, disk) && end.Err? && end.error != InvalidData
    ensures kept <= disk <==>
              && r.status != 416
              && (Succeeds(r) && r.status != 206 ==> |Flatten(r.pieces)| >= |kept|)
  {
    if Succeeds(r) {
      PrefixStays(content, kept, r);
      var room := |content| - (if Appends(r, |kept|) then |kept| else 0);
      AcceptedIsPrefix(room, r.pieces);
      assert [] + Flatten(r.pieces) == Flatten(r.pieces);
    }
  }

  // ---- The downloader.

  class Downloader {
    const cache: Cache.ChunkCache

    /** The partial file of the chunk being downloaded. */
    var partial: Option<Bytes>
    var requests: nat

    constructor (cache: Cache.ChunkCache, partial: Option<Bytes>)
      ensures this.cache == cache && this.partial == partial && requests == 0
    {
      this.cache, this.partial, requests := cache, partial, 0;
    }

    ghost predicate CacheOk()
      reads cache
    {
      cache.Valid() && cache.Authentic()
    }

    function OnDisk(): Bytes
      reads this`partial
    {
      match partial case None => [] case Some(bytes) => bytes
    }

    /** A partial file that is longer than its chunk is stale, and dropped before anything else. */
    function Usable(chunk: ChunkRef): Bytes
      reads this`partial
    {
      if |OnDisk()| > chunk.encodedSize then [] else OnDisk()
    }

    /** What a request continues: the partial file, unless it is as long as its chunk already, or longer. */
    function Resumed(chunk: ChunkRef): Bytes
      reads this`partial
    {
      if |OnDisk()| >= chunk.encodedSize then [] else OnDisk()
    }

    /** Offers the partial file to the cache, which moves it in only if it has the right digest. */
    method Admit(chunk: ChunkRef, now: int) returns (admitted: bool)
      requires CacheOk() && ValidChunk(chunk) && partial.Some?
      modifies this`partial, cache`files, cache`entries, cache`currentBytes
      ensures CacheOk()
      ensures admitted <==> cache.hash(old(partial).value) == chunk.encodedHash
      ensures partial == if admitted then None else old(partial)
      ensures !admitted ==> cache.files == old(cache.files)
      ensures forall h | h in cache.files && h != chunk.encodedHash ::
                h in old(cache.files) && cache.files[h] == old(cache.files)[h]
    {
      hide Pass, TotalSize;
      ghost var victims;
      var error, left;
      error, left, victims := cache.PutFile(chunk.encodedHash, partial, now);
      admitted := error.None?;
      partial := left;
    }

    /**
     * At most one request to one location. A complete partial file with the chunk's digest is admitted without one;
     * a stale file is dropped, a shorter one is continued, and the answer turns out as it does for that offset.
     */
    method DownloadOneUrl(chunk: ChunkRef, url: string, server: Server, now: int)
      returns (r: Result<nat, Failure>, ghost admitted: Bytes)
      requires CacheOk() && ValidChunk(chunk)
      modifies this, cache`files, cache`entries, cache`currentBytes
      ensures CacheOk() && old(requests) <= requests <= old(requests) + 1
      ensures requests == old(requests) <==>
                |old(OnDisk())| == chunk.encodedSize && cache.hash(old(OnDisk())) == chunk.encodedHash
      ensures requests == old(requests) ==> r == Ok(0) && admitted == old(OnDisk()) && partial == None
      ensures requests == old(requests) + 1 ==>
                var kept := old(Resumed(chunk));
                TurnsOut(cache.hash, chunk, kept, server(url, old(requests), |kept|), r, OnDisk())
      ensures r.Ok? ==> cache.hash(admitted) == chunk.encodedHash && |admitted| == chunk.encodedSize && partial == None
      ensures r.Err? ==> |OnDisk()| <= chunk.encodedSize
    {
      hide AfterBody, BodyArrives, BreaksOff, Cache.ChunkCache.Valid, Cache.ChunkCache.Authentic;
      admitted := [];
      if |OnDisk()| > chunk.encodedSize {
        partial := None;
      }
      if partial.Some? && |partial.value| == chunk.encodedSize {
        admitted := partial.value;
        var complete := Admit(chunk, now);
        if complete {
          return Ok(0), admitted;
        }
        partial := None;
      }
      var offset := |OnDisk()|;
      var response := server(url, requests, offset);
      requests := requests + 1;
      if response.status == 416 {
        partial := None;
        return Err(HttpFailure), admitted;
      }
      if !Succeeds(response) {
        return Err(HttpFailure), admitted;
      }
      r, admitted := Receive(chunk, response, now);
    }

    /**
     * A location that holds the chunk and always sends all that is missing, when asked for the whole or from inside it.
     */
    ghost predicate Completes(server: Server, url: string, chunk: ChunkRef, content: Bytes) {
      && |content| == chunk.encodedSize && cache.hash(content) == chunk.encodedHash
      && forall n: nat, offset: nat | offset == 0 || offset < |content| ::
            FullAnswer(content, server(url, n, offset), offset)
    }

    /** The body of a successful answer: restart or append, read within the room left, then check and admit. */
    method Receive(chunk: ChunkRef, response: Response, now: int)
      returns (r: Result<nat, Failure>, ghost admitted: Bytes)
      requires CacheOk() && ValidChunk(chunk) && Succeeds(response) && |OnDisk()| < chunk.encodedSize
      modifies this`partial, cache`files, cache`entries, cache`currentBytes
      ensures CacheOk() && TurnsOut(cache.hash, chunk, old(OnDisk()), response, r, OnDisk())
      ensures r.Ok? ==>
                && cache.hash(admitted) == chunk.encodedHash && |admitted| == chunk.encodedSize && partial == None
                && admitted == AfterBody(old(OnDisk()), chunk.encodedSize, response)
      ensures r.Err? ==> |OnDisk()| <= chunk.encodedSize
    {
      hide Accepted, Overflows, Cache.ChunkCache.Valid, Cache.ChunkCache.Authentic;
      AfterBodyFits(OnDisk(), chunk.encodedSize, response);
      admitted := [];
      var offset := |OnDisk()|;
      var append := Appends(response, offset);
      if offset > 0 && !append {
        partial := None;
      }
      var room := chunk.encodedSize - |OnDisk()|;
      if AnnouncesTooMuch(response, room) {
        return Err(InvalidData), admitted;
      }
      var received, overflow := Append(room, response.pieces);
      if overflow {
        return Err(InvalidData), admitted;
      }
      if response.interrupted {
        return Err(IoFailure), admitted;
      }
      if |OnDisk()| != chunk.encodedSize {
        return Err(InvalidData), admitted;
      }
      admitted := OnDisk();
      var complete := Admit(chunk, now);
      if !complete {
        return Err(InvalidData), admitted;
      }
      return Ok(received), admitted;
    }

    /** The read loop: appends whole reads to the file, up to the first that would pass the room left. */
    method Append(room: nat, pieces: seq<Bytes>) returns (received: nat, overflow: bool)
      modifies this`partial
      ensures partial == Some(old(OnDisk()) + Accepted(room, pieces))
      ensures overflow == Overflows(room, pieces) && received == |Accepted(room, pieces)| <= room
    {
      hide Accepted, Overflows;
      ghost var base, taken: Bytes := OnDisk(), [];
      received := 0;
      partial := Some(OnDisk());
      assert pieces[0..] == pieces && base + [] == base && [] + Accepted(room, pieces) == Accepted(room, pieces);
      for k := 0 to |pieces|
        invariant partial == Some(base + taken) && received == |taken| <= room
        invariant Overflows(room, pieces) == Overflows(room - received, pieces[k..])
        invariant Accepted(room, pieces) == taken + Accepted(room - received, pieces[k..])
      {
        var piece := pieces[k];
        AcceptOne(room - received, pieces[k..]);
        assert pieces[k..][1..] == pieces[k + 1..];
        if |piece| > room - received {
          assert taken + [] == taken;
          return received, true;
        }
        AcceptedStep(taken, piece, Accepted(room - received - |piece|, pieces[k + 1..]));
        assert base + taken + piece == base + (taken + piece);
        partial := Some(partial.value + piece);
        taken := taken + piece;
        received := received + |piece|;
      }
      assert pieces[|pieces|..] == [];
      AcceptNone(room - received);
      assert taken + [] == taken;
      return received, false;
    }

    /** A server that always sends true bytes for the offset it was asked for. */
    static ghost predicate Honest(server: Server, content: Bytes) {
      forall url, n, offset ::
        Succeeds(server(url, n, offset)) ==>
          TrueBytes(content, server(url, n, offset)) && AnswersOffset(server(url, n, offset), offset)
    }

    /** From honest servers, the usable part of the partial file is a beginning of the chunk. */
    ghost predicate PartialOk(chunk: ChunkRef, server: Server, content: Bytes, good: bool)
      reads this`partial
    {
      good ==> |content| == chunk.encodedSize && Usable(chunk) <= content && Honest(server, content)
    }

    /** Someone among these locations completes transfers. */
    ghost predicate Served(server: Server, urls: seq<string>, chunk: ChunkRef, content: Bytes) {
      exists url | url in urls :: Completes(server, url, chunk, content)
    }

    /** These bytes are the chunk, and the usable part of the partial file is a beginning of them. */
    ghost predicate Begun(chunk: ChunkRef, content: Bytes)
      reads this`partial
    {
      |content| == chunk.encodedSize && cache.hash(content) == chunk.encodedHash && Usable(chunk) <= content
    }

    /** A location that never condemns a true beginning: it continues it, or refuses without a 416. */
    static ghost predicate Steady(server: Server, url: string, content: Bytes) {
      forall n: nat, offset: nat | offset < |content| :: Continues(content, server(url, n, offset), offset)
    }

    /** A steady location whose every answer brings at least one byte before the connection breaks. */
    static ghost predicate Advances(server: Server, url: string, content: Bytes) {
      && Steady(server, url, content)
      && forall n: nat, offset: nat | offset < |content| ::
           200 <= server(url, n, offset).status <= 299 && Flatten(server(url, n, offset).pieces) != []
    }

    /** What a failed request to an honest location leaves, and that one which completes transfers does not fail. */
    lemma HonestEnd(chunk: ChunkRef, url: string, server: Server, n: nat, content: Bytes, kept: Bytes,
                    end: Result<nat, Failure>, disk: Bytes)
      requires |content| == chunk.encodedSize && kept <= content && |kept| < chunk.encodedSize
      requires Honest(server, content)
      requires TurnsOut(cache.hash, chunk, kept, server(url, n, |kept|), end, disk)
      ensures end.Err? ==> disk <= content
      ensures Completes(server, url, chunk, content) ==> end.Ok?
    {
      hide TrueBytes, AnswersOffset, AfterBody, BodyArrives, BreaksOff, FullAnswer;
      var response := server(url, n, |kept|);
      if Succeeds(response) {
        PrefixStays(content, kept, response);
      }
      if Completes(server, url, chunk, content) {
        FullAnswerSucceeds(content, response, |kept|);
        FullAnswerCompletes(content, kept, response);
      }
    }

    /** A failed request to a steady location loses nothing, and to one that advances it gains. */
    lemma SteadyEnd(chunk: ChunkRef, url: string, server: Server, n: nat, content: Bytes, kept: Bytes,
                    end: Result<nat, Failure>, disk: Bytes)
      requires |content| == chunk.encodedSize && cache.hash(content) == chunk.encodedHash
      requires kept <= content && |kept| < chunk.encodedSize && Steady(server, url, content)
      requires TurnsOut(cache.hash, chunk, kept, server(url, n, |kept|), end, disk)
      ensures end.Err? ==> kept <= disk <= content && end.error != InvalidData
      ensures end.Err? && Advances(server, url, content) ==> |kept| < |disk|
    {
      hide TurnsOut, Continues;
      ContinuedOrComplete(cache.hash, chunk, content, kept, server(url, n, |kept|), end, disk);
    }

    /**
     * One pass over the locations, in order. After failures the partial file is still a beginning of the chunk if the
     * servers are honest; it has lost nothing if the locations are steady, and has grown at each one that advances.
     */
    method TryEach(chunk: ChunkRef, locations: seq<string>, server: Server, now: int, ghost content: Bytes,
                   ghost good: bool)
      returns (r: Result<nat, Failure>, ghost admitted: Bytes)
      requires CacheOk() && ValidChunk(chunk) && PartialOk(chunk, server, content, good)
      modifies this, cache`files, cache`entries, cache`currentBytes
      ensures CacheOk()
      ensures r.Ok? ==>
                && cache.hash(admitted) == chunk.encodedHash && |admitted| == chunk.encodedSize && partial == None
                && requests <= old(requests) + |locations|
      ensures r.Err? ==>
                && requests == old(requests) + |locations| && PartialOk(chunk, server, content, good)
                && (good ==> !Served(server, locations, chunk, content))
                && (if locations == [] then partial == old(partial) else |OnDisk()| <= chunk.encodedSize)
                && (locations != [] && r.error == InvalidData ==> OnDisk() == [])
      ensures r.Err? && old(Begun(chunk, content))
              && (forall url | url in locations :: Steady(server, url, content)) ==>
                old(Usable(chunk)) <= Usable(chunk) <= content
      ensures old(Begun(chunk, content)) && (forall url | url in locations :: Advances(server, url, content)) ==>
                if r.Ok? then requests <= old(requests) + |content| - |old(Usable(chunk))|
                else |old(Usable(chunk))| + |locations| <= |Usable(chunk)|
    {
      hide Downloader.Honest, Downloader.Completes, Downloader.Steady, Downloader.Advances, TurnsOut;
      hide Cache.ChunkCache.Valid, Cache.ChunkCache.Authentic;
      ghost var steady := Begun(chunk, content) && forall url | url in locations :: Steady(server, url, content);
      ghost var advancing := Begun(chunk, content) && forall url | url in locations :: Advances(server, url, content);
      ghost var usable := Usable(chunk);
      if advancing {
        AdvancingIsSteady(server, locations, content);
      }
      r, admitted := Err(HttpFailure), [];
      for k := 0 to |locations|
        invariant r.Err? && CacheOk() && PartialOk(chunk, server, content, good) && requests == old(requests) + k
        invariant good ==> !Served(server, locations[..k], chunk, content)
        invariant if k == 0 then partial == old(partial) else |OnDisk()| <= chunk.encodedSize
        invariant k > 0 && r.error == InvalidData ==> OnDisk() == []
        invariant steady ==> Begun(chunk, content) && usable <= Usable(chunk)
        invariant advancing ==> |usable| + k <= |Usable(chunk)|
      {
        ghost var kept, n := Resumed(chunk), requests;
        assert steady ==> kept <= content;
        assert steady && |OnDisk()| == chunk.encodedSize ==> OnDisk() == content;
        r, admitted := DownloadOneUrl(chunk, locations[k], server, now);
        if r.Ok? {
          return;
        }
        if good {
          HonestEnd(chunk, locations[k], server, n, content, kept, r, OnDisk());
        }
        if steady {
          SteadyEnd(chunk, locations[k], server, n, content, kept, r, OnDisk());
          assert usable <= kept && Usable(chunk) == OnDisk();
        }
        assert locations[..k + 1] == locations[..k] + [locations[k]];
        if r.error.InvalidData? {
          partial := None;
        }
      }
      assert locations[..|locations|] == locations;
    }

    /**
     * Up to four passes over each of two lists of locations, and a failure only after all of them. Between attempts
     * the partial file never exceeds the chunk's size, even if it did before, and from honest servers it is always a
     * prefix of the chunk; one location among them that completes transfers is then enough. So are locations that
     * only ever break off after a byte or more, for a chunk that misses fewer bytes than four passes make requests.
     */
    method DownloadChunkWithRetry(chunk: ChunkRef, urls: seq<string>, refreshed: seq<string>, server: Server, now: int,
                                  ghost content: Bytes)
      returns (r: Result<nat, Failure>, ghost admitted: Bytes)
      requires CacheOk() && ValidChunk(chunk)
      modifies this, cache`files, cache`entries, cache`currentBytes
      ensures CacheOk()
      ensures r.Ok? ==> cache.hash(admitted) == chunk.encodedHash && |admitted| == chunk.encodedSize && partial == None
      ensures requests <= old(requests) + 4 * |urls| + 4 * |refreshed|
      ensures r.Err? ==>
                && requests == old(requests) + 4 * |urls| + 4 * |refreshed|
                && (|OnDisk()| <= chunk.encodedSize <==>
                      |urls| + |refreshed| > 0 || |old(OnDisk())| <= chunk.encodedSize)
      ensures |content| == chunk.encodedSize && old(Usable(chunk)) <= content && Honest(server, content) ==>
                && (r.Err? ==> Usable(chunk) <= content)
                && (Served(server, urls, chunk, content) ==> r.Ok? && requests <= old(requests) + |urls|)
      ensures old(Begun(chunk, content)) && (forall url | url in urls :: Advances(server, url, content))
              && |content| - |old(Usable(chunk))| < 4 * |urls| ==>
                r.Ok? && requests <= old(requests) + |content| - |old(Usable(chunk))|
    {
      hide Downloader.Honest, Downloader.Served, Downloader.Advances, Downloader.Steady;
      hide Cache.ChunkCache.Valid, Cache.ChunkCache.Authentic;
      var locations := urls;
      ghost var good := |content| == chunk.encodedSize && Usable(chunk) <= content && Honest(server, content);
      ghost var usable := |Usable(chunk)|;
      ghost var advancing := Begun(chunk, content) && (forall url | url in urls :: Advances(server, url, content))
                             && |content| - usable < 4 * |urls|;
      for refreshAttempt := 0 to 2
        invariant CacheOk() && PartialOk(chunk, server, content, good)
        invariant locations == if refreshAttempt == 0 then urls else refreshed
        invariant requests ==
                    old(requests)
                    + (if refreshAttempt > 0 then 4 * |urls| else 0)
                    + (if refreshAttempt > 1 then 4 * |refreshed| else 0)
        invariant if requests == old(requests) then partial == old(partial) else |OnDisk()| <= chunk.encodedSize
        invariant good && refreshAttempt > 0 ==> !Served(server, urls, chunk, content)
        invariant refreshAttempt > 0 ==> !advancing
      {
        ghost var start := requests;
        for attempt := 0 to 4
          invariant CacheOk() && PartialOk(chunk, server, content, good)
          invariant requests == start + attempt * |locations|
          invariant if requests == old(requests) then partial == old(partial) else |OnDisk()| <= chunk.encodedSize
          invariant good && (refreshAttempt > 0 || attempt > 0) ==> !Served(server, urls, chunk, content)
          invariant advancing ==>
                      refreshAttempt == 0 && Begun(chunk, content) && usable + attempt * |urls| <= |Usable(chunk)|
        {
          r, admitted := TryEach(chunk, locations, server, now, content, good);
          if advancing {
            AdvancingIsSteady(server, locations, content);
          }
          Passes(attempt, |locations|);
          if r.Ok? {
            return;
          }
        }
        locations := refreshed;
        if locations == [] {
          break;
        }
      }
      return Err(HttpFailure), [];
    }

    static lemma AdvancingIsSteady(server: Server, locations: seq<string>, content: Bytes)
      requires forall url | url in locations :: Advances(server, url, content)
      ensures forall url | url in locations :: Steady(server, url, content)
    {
      forall url | url in locations ensures Steady(server, url, content) {
        assert Advances(server, url, content);
      }
    }
  }

  /** Sends the byte at the offset asked for, and breaks. */
  function OneByteAt(content: Bytes): Server {
    (_: string, _: nat, offset: nat) =>
      Response(206, Some(offset), None, if offset < |content| then [[content[offset]]] else [], true)
  }

  /** The slowest location that still advances. */
  lemma OneByteAdvances(content: Bytes, url: string)
    ensures Downloader.Advances(OneByteAt(content), url, content)
  {
    forall n: nat, offset: nat | offset < |content|
      ensures Continues(content, OneByteAt(content)(url, n, offset), offset)
      ensures Flatten(OneByteAt(content)(url, n, offset).pieces) != []
    {
      var byte := content[offset];
      assert [[byte]][1..] == [];
      assert Flatten([[byte]]) == [byte] + Flatten([]) == [byte];
      assert content[offset..][..1] == [byte];
    }
  }

  lemma Passes(attempt: nat, count: nat)
    requires attempt <= 3
    ensures attempt * count + count == (attempt + 1) * count <= 4 * count
  {
  }
}
