/**
  The synchronous 9P client of src/frontend/ninep_client.rs, composed with the
  server's parsing and handling of what it sends.
  */
module NinepClient {
  import opened Wrappers
  import opened Arithmetic
  import opened Bytes
  import opened NinepTable
  import opened NinepMessages
  import opened NinepMux
  import opened NinepWalk
  import opened Paths

  const ROOT_FID := 1
  const CLIENT_MSIZE := 65536
  const DIR_PERM := 0x8000_01ed
  const FILE_PERM := 0x1a4

  // ---------------------------------------------------------------------
  // Version negotiation
  // ---------------------------------------------------------------------

  /** What the client adopts from the server's answer to its Tversion. */
  function Negotiated(asked: nat): (msize: nat)
    ensures MIN_MSIZE <= msize <= MAX_MSIZE
    ensures MIN_MSIZE <= asked <= MAX_MSIZE ==> msize == asked
  {
    Min(ClampMsize(asked), CLIENT_MSIZE)
  }

  // ---------------------------------------------------------------------
  // Walk
  // ---------------------------------------------------------------------

  function EncodeNames(names: seq<Path>): seq<byte> {
    if names == [] then [] else U16(|names[0]|) + names[0] + EncodeNames(names[1..])
  }

  function WalkBody(fid: nat, newFid: nat, names: seq<Path>): seq<byte> {
    U32(fid) + U32(newFid) + U16(|names|) + EncodeNames(names)
  }

  ghost predicate NamesFit(names: seq<Path>) {
    forall i :: 0 <= i < |names| ==> |names[i]| < U16_LIMIT
  }

  /** A whole name at the front is taken. */
  lemma WholeName(head: seq<byte>, name: Path, rest: seq<byte>, count: nat)
    requires |name| < U16_LIMIT
    ensures var next := head + U16(|name|) + name;
            ParseNames(next + rest, |head|, count + 1) == [name] + ParseNames(next + rest, |next|, count)
  {
    FirstName(head, name, rest);
  }

  lemma EncodedAfter(head: seq<byte>, names: seq<Path>, rest: seq<byte>)
    requires names != [] && NamesFit(names)
    requires var next := head + U16(|names[0]|) + names[0];
             ParseNames(next + rest, |next|, |names| - 1) == names[1..]
    ensures ParseNames(head + U16(|names[0]|) + names[0] + rest, |head|, |names|) == names
  {
    WholeName(head, names[0], rest, |names| - 1);
    assert names == [names[0]] + names[1..];
  }

  /** The server takes the names back out of the body, whatever precedes them. */
  lemma {:induction false} ParseEncodedNames(head: seq<byte>, names: seq<Path>)
    requires NamesFit(names)
    ensures ParseNames(head + EncodeNames(names), |head|, |names|) == names
    decreases |names|
  {
    if names != [] {
      var name, tail := names[0], EncodeNames(names[1..]);
      var next := head + U16(|name|) + name;
      ParseEncodedNames(next, names[1..]);
      EncodedAfter(head, names, tail);
      assert head + EncodeNames(names) == next + tail;
    }
  }

  /** A name that is cut off is not taken. */
  lemma CutOffName(head: seq<byte>, name: Path, part: seq<byte>, count: nat)
    requires |name| < U16_LIMIT && part <= U16(|name|) + name && |part| < 2 + |name|
    ensures ParseNames(head + part, |head|, count) == []
  {
    if 2 <= |part| {
      FirstName(head, name, []);
      assert (head + part)[|head|..|head| + 2] == (head + U16(|name|) + name + [])[|head|..|head| + 2];
    }
  }

  lemma CutFront(head: seq<byte>, first: seq<byte>, tail: seq<byte>, cut: nat)
    requires cut <= |first + tail|
    ensures cut < |first| ==> head + (first + tail)[..cut] == head + first[..cut]
    ensures cut >= |first| ==> head + (first + tail)[..cut] == head + first + tail[..cut - |first|]
  {
  }

  lemma TruncatedAfter(head: seq<byte>, names: seq<Path>, rest: seq<byte>)
    requires names != [] && NamesFit(names)
    requires var next := head + U16(|names[0]|) + names[0];
             ParseNames(next + rest, |next|, |names| - 1) <= names[1..]
    ensures ParseNames(head + U16(|names[0]|) + names[0] + rest, |head|, |names|) <= names
  {
    WholeName(head, names[0], rest, |names| - 1);
    assert names == [names[0]] + names[1..];
  }

  /** Of a body that is cut off anywhere, the server takes the first names, and only whole ones. */
  lemma {:induction false} ParseTruncatedNames(head: seq<byte>, names: seq<Path>, cut: nat)
    requires NamesFit(names) && cut <= |EncodeNames(names)|
    ensures ParseNames(head + EncodeNames(names)[..cut], |head|, |names|) <= names
    decreases |names|
  {
    if names != [] {
      var name, tail := names[0], EncodeNames(names[1..]);
      var first := U16(|name|) + name;
      CutFront(head, first, tail, cut);
      if cut < |first| {
        CutOffName(head, name, first[..cut], |names|);
      } else {
        var next := head + U16(|name|) + name;
        assert head + first == next;
        ParseTruncatedNames(next, names[1..], cut - |first|);
        TruncatedAfter(head, names, tail[..cut - |first|]);
      }
    }
  }

  lemma FirstName(head: seq<byte>, name: Path, tail: seq<byte>)
    requires |name| < U16_LIMIT
    ensures var body := head + U16(|name|) + name + tail;
            Field(body, |head|, 2) == |name| && body[|head| + 2..|head| + 2 + |name|] == name
  {
    Limits();
    var body := head + U16(|name|) + name + tail;
    assert body == head + ToLE(2, |name|) + (name + tail);
    FieldOf(head, 2, |name|, name + tail);
  }

  lemma WalkFields(fid: nat, newFid: nat, names: seq<Path>)
    requires fid < U32_LIMIT && newFid < U32_LIMIT && |names| < U16_LIMIT
    ensures var body := WalkBody(fid, newFid, names);
            Field(body, 0, 4) == fid && Field(body, 4, 4) == newFid && Field(body, 8, 2) == |names|
  {
    Limits();
    var body, tail := WalkBody(fid, newFid, names), EncodeNames(names);
    assert body == [] + ToLE(4, fid) + (U32(newFid) + U16(|names|) + tail);
    FieldOf([], 4, fid, U32(newFid) + U16(|names|) + tail);
    assert body == U32(fid) + ToLE(4, newFid) + (U16(|names|) + tail);
    FieldOf(U32(fid), 4, newFid, U16(|names|) + tail);
    assert body == (U32(fid) + U32(newFid)) + ToLE(2, |names|) + tail;
    FieldOf(U32(fid) + U32(newFid), 2, |names|, tail);
  }

  /** The server parses the client's Twalk into the very names the client split off. */
  lemma WalkOnTheWire(fid: nat, newFid: nat, names: seq<Path>)
    requires fid < U32_LIMIT && newFid < U32_LIMIT && |names| < U16_LIMIT && NamesFit(names)
    ensures Parse(TWALK, WalkBody(fid, newFid, names)) == Parsed(Walk(fid, newFid, names, |names|))
  {
    WalkFields(fid, newFid, names);
    var head := U32(fid) + U32(newFid) + U16(|names|);
    ParseEncodedNames(head, names);
    assert WalkBody(fid, newFid, names) == head + EncodeNames(names);
  }

  /** The client's encoding loop. */
  method EncodeWalk(fid: nat, newFid: nat, names: seq<Path>) returns (body: seq<byte>)
    ensures body == WalkBody(fid, newFid, names)
  {
    body := U32(fid) + U32(newFid) + U16(|names|);
    ghost var head := body;
    for i := 0 to |names|
      invariant body + EncodeNames(names[i..]) == head + EncodeNames(names)
    {
      ghost var before := body;
      assert names[i..][1..] == names[i + 1..];
      body := body + U16(|names[i]|);
      body := body + names[i];
      assert body + EncodeNames(names[i + 1..]) == before + (U16(|names[i]|) + names[i] + EncodeNames(names[i + 1..]));
    }
    assert names[|names|..] == [];
  }

  // ---------------------------------------------------------------------
  // mkdir and create_file
  // ---------------------------------------------------------------------

  function CreateBody(fid: nat, name: Path, perm: nat, mode: byte): seq<byte> {
    U32(fid) + U16(|name|) + name + U32(perm) + [mode]
  }

  lemma CreateOnTheWire(fid: nat, name: Path, perm: nat, mode: byte)
    requires fid < U32_LIMIT && |name| < U16_LIMIT && perm < U32_LIMIT
    ensures Parse(TCREATE, CreateBody(fid, name, perm, mode)) == Parsed(Create(fid, name, perm >= DMDIR))
  {
    Limits();
    var body, n := CreateBody(fid, name, perm, mode), |name|;
    assert body == [] + ToLE(4, fid) + (U16(n) + name + U32(perm) + [mode]);
    FieldOf([], 4, fid, U16(n) + name + U32(perm) + [mode]);
    assert body == U32(fid) + ToLE(2, n) + (name + U32(perm) + [mode]);
    FieldOf(U32(fid), 2, n, name + U32(perm) + [mode]);
    assert body == (U32(fid) + U16(n) + name) + ToLE(4, perm) + [mode];
    FieldOf(U32(fid) + U16(n) + name, 4, perm, [mode]);
    assert body[6..6 + n] == name;
  }

  /** The client's Twalk for the path is a message the server accepts. */
  predicate PathFits(path: Path) {
    |WalkBody(ROOT_FID, 0, WalkedNames(path))| <= MAX_BODY
  }

  lemma {:induction false} NamesFitInBody(names: seq<Path>, i: nat)
    requires i < |names|
    ensures 2 + |names[i]| <= |EncodeNames(names)|
  {
    if i > 0 {
      NamesFitInBody(names[1..], i - 1);
    }
  }

  lemma {:induction false} CountFitsInBody(names: seq<Path>)
    ensures 2 * |names| <= |EncodeNames(names)|
  {
    if names != [] {
      CountFitsInBody(names[1..]);
    }
  }

  lemma {:induction false} EncodeNamesConcat(a: seq<Path>, b: seq<Path>)
    ensures |EncodeNames(a + b)| == |EncodeNames(a)| + |EncodeNames(b)|
  {
    if a == [] {
      assert a + b == b;
    } else {
      assert (a + b)[1..] == a[1..] + b;
      EncodeNamesConcat(a[1..], b);
    }
  }

  lemma SmallNamesFit(names: seq<Path>)
    requires |EncodeNames(names)| <= MAX_BODY
    ensures |names| < U16_LIMIT && NamesFit(names)
  {
    CountFitsInBody(names);
    forall i | 0 <= i < |names|
      ensures |names[i]| < U16_LIMIT
    {
      NamesFitInBody(names, i);
    }
  }

  /** If the walk to a path fits a message, so do the walk to its parent and the create of its name. */
  lemma ParentFits(path: Path)
    requires PathFits(path)
    ensures var (parent, name) := SplitParentName(path);
            PathFits(parent) && |CreateBody(0, name, 0, 0)| <= MAX_BODY
  {
    var (parent, name) := SplitParentName(path);
    WalkedAreComponents(path);
    WalkedAreComponents(parent);
    ParentAndName(path);
    EncodeNamesConcat(Components(parent), Components(name));
    ComponentsOfName(name);
    if name != [] {
      assert EncodeNames([name]) == U16(|name|) + name + EncodeNames([]);
    }
  }

  /**
    For every path string whose Twalk fits a message: that Twalk makes the server
    walk from the root to the string's real path; and mkdir (or create_file) makes
    the server walk to the parent and then create exactly the real path, as a
    directory (or a file).
    */
  lemma ClientActsOnRealpath(path: Path, fid: nat, directory: bool)
    requires PathFits(path) && fid < U32_LIMIT
    ensures var names := WalkedNames(path);
            && Parse(TWALK, WalkBody(ROOT_FID, fid, names)) == Parsed(Walk(ROOT_FID, fid, names, |names|))
            && PathAfter(ROOT, names) == Realpath(path)
    ensures var (parent, name) := SplitParentName(path);
            var names := WalkedNames(parent);
            var perm, mode := if directory then DIR_PERM else FILE_PERM, if directory then 0 else 1;
            && Parse(TWALK, WalkBody(ROOT_FID, fid, names)) == Parsed(Walk(ROOT_FID, fid, names, |names|))
            && Parse(TCREATE, CreateBody(fid, name, perm, mode)) == Parsed(Create(fid, name, directory))
            && Join(PathAfter(ROOT, names), name) == Realpath(path)
  {
    var (parent, name) := SplitParentName(path);
    ParentFits(path);
    SmallNamesFit(WalkedNames(path));
    SmallNamesFit(WalkedNames(parent));
    WalkOnTheWire(ROOT_FID, fid, WalkedNames(path));
    WalkOnTheWire(ROOT_FID, fid, WalkedNames(parent));
    CreateOnTheWire(fid, name, if directory then DIR_PERM else FILE_PERM, if directory then 0 else 1);
    WalkReachesRealpath(path);
    CreateActsOnRealpath(path);
  }

  /** On consistent tables, the walked fid ends up bound to the real path and its one qid. */
  lemma ClientWalkBinds(t: Table, path: Path, fid: nat)
    requires TableOk(t) && ROOT_FID in t.fids && t.fids[ROOT_FID].path == ROOT
    ensures var t' := WalkTo(t, ROOT_FID, fid, WalkedNames(path));
            t'.fids[fid].path == Realpath(path) && Names(t', t'.fids[fid].qid, Realpath(path))
  {
    var w := From(t, ROOT_FID);
    assert Names(t, w.at.qid, w.at.path);
    WalkNamesOk(w, WalkedNames(path));
    WalkReachesRealpath(path);
  }

  // ---------------------------------------------------------------------
  // Chunked writes
  // ---------------------------------------------------------------------

  function WriteBody(fid: nat, offset: nat, chunk: seq<byte>): seq<byte> {
    U32(fid) + U64(offset) + U32(|chunk|) + chunk
  }

  /** The server hands the router exactly the chunk the client sent. */
  lemma WriteOnTheWire(fid: nat, offset: nat, chunk: seq<byte>)
    requires fid < U32_LIMIT && offset < U64_LIMIT && |chunk| < U32_LIMIT
    ensures Parse(TWRITE, WriteBody(fid, offset, chunk)) == Parsed(Write(fid, offset, chunk, |chunk|))
  {
    ShortWriteOnTheWire(fid, offset, |chunk|, chunk);
  }

  /** A Twrite whose count and data disagree: the server takes no more than either. */
  lemma ShortWriteOnTheWire(fid: nat, offset: nat, count: nat, data: seq<byte>)
    requires fid < U32_LIMIT && offset < U64_LIMIT && count < U32_LIMIT
    ensures Parse(TWRITE, U32(fid) + U64(offset) + U32(count) + data)
         == Parsed(Write(fid, offset, if count < |data| then data[..count] else data, count))
  {
    Limits();
    var body := U32(fid) + U64(offset) + U32(count) + data;
    assert body == [] + ToLE(4, fid) + (U64(offset) + U32(count) + data);
    FieldOf([], 4, fid, U64(offset) + U32(count) + data);
    assert body == U32(fid) + ToLE(8, offset) + (U32(count) + data);
    FieldOf(U32(fid), 8, offset, U32(count) + data);
    assert body == (U32(fid) + U64(offset)) + ToLE(4, count) + data;
    FieldOf(U32(fid) + U64(offset), 4, count, data);
    var n := Min(count, |data|);
    assert body[16..16 + n] == data[..n];
    assert count >= |data| ==> data[..n] == data;
  }

  /** The payload the server takes out of a Twrite. */
  function ServerPayload(m: Message): seq<byte> {
    var parsed := Parse(m.ty, m.body);
    if parsed.Parsed? && parsed.request.Write? then parsed.request.data else []
  }

  function Payloads(ms: seq<Message>): seq<seq<byte>> {
    seq(|ms|, i requires 0 <= i < |ms| => ServerPayload(ms[i]))
  }

  /**
    Twrite number `i` of an upload: it respects the negotiated size and the
    server's limit, and its offset is where the previous payloads end.
    */
  ghost predicate GoodWrite(ms: seq<Message>, i: nat, fid: nat, msize: nat)
    requires i < |ms|
  {
    && |EncodeMessage(ms[i])| < msize && MessageFits(ms[i])
    && var parsed := Parse(ms[i].ty, ms[i].body);
       parsed == Parsed(Write(fid, |Flatten(Payloads(ms[..i]))|, ServerPayload(ms[i]), |ServerPayload(ms[i])|))
  }

  /** What has been sent of an upload so far; only the message that completes it may be short. */
  ghost predicate Uploaded(ms: seq<Message>, data: seq<byte>, offset: nat, fid: nat, msize: nat) {
    && offset <= |data| && Flatten(Payloads(ms)) == data[..offset]
    && (forall i :: 0 <= i < |ms| ==> GoodWrite(ms, i, fid, msize))
    && (forall i :: 0 <= i < |ms| ==>
          |ServerPayload(ms[i])| == msize - 24 || (i == |ms| - 1 && offset == |data|))
  }

  /** The chunks that `write_file` cuts off the front of the data. */
  ghost predicate CutInto(data: seq<byte>, chunks: seq<seq<byte>>, offset: nat, msize: nat) {
    && offset <= |data| && Flatten(chunks) == data[..offset]
    && forall i :: 0 <= i < |chunks| ==>
         |chunks[i]| == msize - 24 || (i == |chunks| - 1 && offset == |data| && |chunks[i]| <= msize - 24)
  }

  /** One Twrite for each chunk, at the offset where the chunks before it end. */
  function Twrites(chunks: seq<seq<byte>>, fid: nat): (ms: seq<Message>)
    ensures |ms| == |chunks|
  {
    if chunks == [] then []
    else
      var front := chunks[..|chunks| - 1];
      Twrites(front, fid) + [Message(TWRITE, 0, WriteBody(fid, |Flatten(front)|, chunks[|chunks| - 1]))]
  }

  lemma {:induction false} TwriteAt(chunks: seq<seq<byte>>, fid: nat, i: nat)
    requires i < |chunks|
    ensures Twrites(chunks, fid)[i] == Message(TWRITE, 0, WriteBody(fid, |Flatten(chunks[..i])|, chunks[i]))
  {
    var front := chunks[..|chunks| - 1];
    if i < |front| {
      TwriteAt(front, fid, i);
      assert front[..i] == chunks[..i];
    }
  }

  /** The messages carry the first `sent` bytes of the data, cut into chunks. */
  ghost predicate Sent(ms: seq<Message>, data: seq<byte>, sent: nat, fid: nat, msize: nat) {
    exists chunks :: CutInto(data, chunks, sent, msize) && ms == Twrites(chunks, fid)
  }

  lemma NextChunk(data: seq<byte>, chunks: seq<seq<byte>>, offset: nat, fid: nat, msize: nat, chunk: seq<byte>)
    requires msize >= 24 && offset < |data| && chunk == data[offset..offset + Min(|data| - offset, msize - 24)]
    requires CutInto(data, chunks, offset, msize)
    ensures CutInto(data, chunks + [chunk], offset + |chunk|, msize)
    ensures Twrites(chunks + [chunk], fid)
         == Twrites(chunks, fid) + [Message(TWRITE, 0, WriteBody(fid, offset, chunk))]
  {
    FlattenSnoc(chunks, chunk);
    assert data[..offset] + chunk == data[..offset + |chunk|];
    assert (chunks + [chunk])[..|chunks|] == chunks;
  }

  lemma CarriedPayload(chunks: seq<seq<byte>>, offset: nat, data: seq<byte>, fid: nat, msize: nat, i: nat)
    requires fid < U32_LIMIT && |data| < U64_LIMIT && MIN_MSIZE <= msize <= MAX_MSIZE
    requires CutInto(data, chunks, offset, msize) && i < |chunks|
    ensures var m, start := Twrites(chunks, fid)[i], |Flatten(chunks[..i])|;
            && ServerPayload(m) == chunks[i] && |EncodeMessage(m)| < msize && MessageFits(m)
            && Parse(m.ty, m.body) == Parsed(Write(fid, start, chunks[i], |chunks[i]|))
  {
    FlattenPrefix(chunks[..i], chunks);
    TwriteAt(chunks, fid, i);
    WriteOnTheWire(fid, |Flatten(chunks[..i])|, chunks[i]);
  }

  lemma ChunksAreGood(chunks: seq<seq<byte>>, offset: nat, data: seq<byte>, fid: nat, msize: nat)
    requires fid < U32_LIMIT && |data| < U64_LIMIT && MIN_MSIZE <= msize <= MAX_MSIZE
    requires CutInto(data, chunks, offset, msize)
    ensures Uploaded(Twrites(chunks, fid), data, offset, fid, msize)
  {
    var ms := Twrites(chunks, fid);
    forall i | 0 <= i < |ms|
      ensures ServerPayload(ms[i]) == chunks[i]
    {
      CarriedPayload(chunks, offset, data, fid, msize, i);
    }
    assert Payloads(ms) == chunks;
    forall i | 0 <= i < |ms|
      ensures GoodWrite(ms, i, fid, msize)
    {
      CarriedPayload(chunks, offset, data, fid, msize, i);
      assert Payloads(ms[..i]) == chunks[..i];
    }
  }

  /**
    At the server, such messages are an upload: each is within the negotiated size
    and the server's limit, the offsets are contiguous, and the payloads that reach
    the router concatenate to what was sent of the data.
    */
  lemma UploadIsGood(ms: seq<Message>, data: seq<byte>, sent: nat, fid: nat, msize: nat)
    requires fid < U32_LIMIT && |data| < U64_LIMIT && MIN_MSIZE <= msize <= MAX_MSIZE
    requires Sent(ms, data, sent, fid, msize)
    ensures Uploaded(ms, data, sent, fid, msize)
  {
    var chunks :| CutInto(data, chunks, sent, msize) && ms == Twrites(chunks, fid);
    ChunksAreGood(chunks, sent, data, fid, msize);
  }

  /**
    The loop of `write_file`. `accepts` is what the server answers to each Twrite;
    an error reply ends the upload. Every Twrite but the last is as large as msize allows.
    */
  method WriteFile(data: seq<byte>, fid: nat, msize: nat, accepts: nat -> bool)
    returns (done: bool, messages: seq<Message>, offset: nat)
    requires fid < U32_LIMIT && |data| < U64_LIMIT && MIN_MSIZE <= msize <= MAX_MSIZE
    ensures Sent(messages, data, offset, fid, msize) && (done ==> offset == |data|)
    ensures done <==> forall i :: 0 <= i < |messages| ==> accepts(i)
  {
    messages, done, offset := [], true, 0;
    ghost var chunks: seq<seq<byte>> := [];
    while offset < |data|
      invariant offset <= |data| && CutInto(data, chunks, offset, msize) && messages == Twrites(chunks, fid)
      invariant done && forall i :: 0 <= i < |messages| ==> accepts(i)
    {
      var n := Min(|data| - offset, msize - 24);
      var chunk := data[offset..offset + n];
      NextChunk(data, chunks, offset, fid, msize, chunk);
      messages, chunks := messages + [Message(TWRITE, 0, WriteBody(fid, offset, chunk))], chunks + [chunk];
      offset := offset + n;
      if !accepts(|messages| - 1) {
        done := false;
        break;
      }
    }
    assert Sent(messages, data, offset, fid, msize);
  }

  // ---------------------------------------------------------------------
  // Reading until empty
  // ---------------------------------------------------------------------

  function TreadBody(fid: nat, offset: nat, count: nat): seq<byte> {
    U32(fid) + U64(offset) + U32(count)
  }

  /** The server takes fid and offset back out of a Tread; it does not look at the count. */
  lemma ReadOnTheWire(fid: nat, offset: nat, count: nat)
    requires fid < U32_LIMIT && offset < U64_LIMIT
    ensures Parse(TREAD, TreadBody(fid, offset, count)) == Parsed(Read(fid, offset))
  {
    Limits();
    var body := TreadBody(fid, offset, count);
    assert body == [] + ToLE(4, fid) + (U64(offset) + U32(count));
    FieldOf([], 4, fid, U64(offset) + U32(count));
    assert body == U32(fid) + ToLE(8, offset) + U32(count);
    FieldOf(U32(fid), 8, offset, U32(count));
  }

  /** The body of the server's Rread for a regular file: everything from the offset on. */
  function ReadReply(content: seq<byte>, offset: nat): seq<byte> {
    var chunk := if offset < |content| then content[offset..] else [];
    U32(|chunk|) + chunk
  }

  /** The server's answer to a message about a file with this content; an Rerror otherwise. */
  function ServeRead(content: seq<byte>, m: Message): Option<seq<byte>> {
    match Parse(m.ty, m.body)
    case Parsed(Read(_, offset)) => Some(ReadReply(content, offset))
    case _ => None
  }

  lemma ServedFromOffset(content: seq<byte>, fid: nat, offset: nat, count: nat)
    requires fid < U32_LIMIT && offset <= |content| && 11 + |content| < U32_LIMIT
    ensures var resp, chunk := ServeRead(content, Message(TREAD, 0, TreadBody(fid, offset, count))), content[offset..];
            && resp.Some? && |resp.value| == 4 + |chunk|
            && Field(resp.value, 0, 4) == |chunk| && resp.value[4..4 + |chunk|] == chunk
  {
    ReadOnTheWire(fid, offset, count);
    Limits();
    var chunk := content[offset..];
    assert ReadReply(content, offset) == [] + ToLE(4, |chunk|) + chunk;
    FieldOf([], 4, |chunk|, chunk);
  }

  /**
    `read_file`'s loop against the server, for a file whose content does not change
    meanwhile: each Tread is encoded, parsed and answered. It ends, with the content.
    */
  method ReadFile(content: seq<byte>, fid: nat, msize: nat) returns (result: seq<byte>)
    requires fid < U32_LIMIT
    requires 11 + |content| < U32_LIMIT  // the reply's size and count fields are 32 bits wide
    ensures result == content
  {
    result := [];
    var offset := 0;
    while true
      invariant offset <= |content| && result == content[..offset]
      decreases |content| - offset
    {
      var answer := ServeRead(content, Message(TREAD, 0, TreadBody(fid, offset, msize)));
      ServedFromOffset(content, fid, offset, msize);
      var resp := answer.value;
      var n := Field(resp, 0, 4);
      assert n == |content| - offset;
      if n == 0 {
        break;
      }
      result := result + resp[4..4 + n];
      offset := offset + n;
    }
  }

  // ---------------------------------------------------------------------
  // The short requests
  // ---------------------------------------------------------------------

  const NOFID := 0xffff_ffff

  /** The server finds the fid of the client's attach, open, clunk, remove and stat messages. */
  lemma FidsOnTheWire(fid: nat, mode: byte)
    requires fid < U32_LIMIT
    ensures Parse(TATTACH, U32(ROOT_FID) + U32(NOFID) + U16(0) + U16(0)) == Parsed(Attach(ROOT_FID))
    ensures Parse(TOPEN, U32(fid) + [mode]) == Parsed(Open(fid))
    ensures Parse(TCLUNK, U32(fid)) == Parsed(Clunk(fid))
    ensures Parse(TREMOVE, U32(fid)) == Parsed(Remove(fid))
    ensures Parse(TSTAT, U32(fid)) == Parsed(Stat(fid))
  {
    FirstField(ROOT_FID, U32(NOFID) + U16(0) + U16(0));
    assert U32(ROOT_FID) + (U32(NOFID) + U16(0) + U16(0)) == U32(ROOT_FID) + U32(NOFID) + U16(0) + U16(0);
    FirstField(fid, [mode]);
    FirstField(fid, []);
    assert U32(fid) + [] == U32(fid);
  }

  lemma FirstField(fid: nat, rest: seq<byte>)
    requires fid < U32_LIMIT
    ensures Field(U32(fid) + rest, 0, 4) == fid
  {
    Limits();
    assert U32(fid) + rest == [] + ToLE(4, fid) + rest;
    FieldOf([], 4, fid, rest);
  }
}
