/**
  9P2000 messages as src/frontend/ninep.rs reads them: the fixed header, and the
  fields each handler takes out of a message body.
  */
module NinepMessages {
  import opened Wrappers
  import opened Arithmetic
  import opened Bytes
  import opened NinepTable

  const TVERSION: byte := 100
  const RVERSION: byte := 101
  const TATTACH: byte := 104
  const RATTACH: byte := 105
  const RERROR: byte := 107
  const TFLUSH: byte := 108
  const RFLUSH: byte := 109
  const TWALK: byte := 110
  const RWALK: byte := 111
  const TOPEN: byte := 112
  const ROPEN: byte := 113
  const TCREATE: byte := 114
  const RCREATE: byte := 115
  const TREAD: byte := 116
  const RREAD: byte := 117
  const TWRITE: byte := 118
  const RWRITE: byte := 119
  const TCLUNK: byte := 120
  const RCLUNK: byte := 121
  const TREMOVE: byte := 122
  const RREMOVE: byte := 123
  const TSTAT: byte := 124
  const RSTAT: byte := 125
  const TWSTAT: byte := 126
  const RWSTAT: byte := 127

  const DMDIR := 0x8000_0000
  const MIN_MSIZE := 4096
  const MAX_MSIZE := 65536

  datatype Message = Message(ty: byte, tag: nat, body: seq<byte>)

  /** `send_reply` on the server and `send_recv` on the client build the same frame. */
  function EncodeMessage(m: Message): seq<byte> {
    U32(7 + |m.body|) + [m.ty] + U16(m.tag) + m.body
  }

  /** What a wstat body asks for, once its fid is known. */
  datatype WstatArgs =
    | TooShort                                   // not even a size field
    | Nothing                                    // no room for type and dev: acknowledged
    | Args(name: Option<Path>, attrs: bool)      // a name field; any of mode, times, length

  datatype Request =
    | Version(msize: nat)
    | Attach(fid: nat)
    | Walk(fid: nat, newFid: nat, names: seq<Path>, count: nat)  // fewer names than `count`: the body ended early
    | Open(fid: nat)
    | Create(fid: nat, name: Path, isDir: bool)
    | Read(fid: nat, offset: nat)
    | Write(fid: nat, offset: nat, data: seq<byte>, count: nat)
    | Clunk(fid: nat)
    | Remove(fid: nat)
    | Stat(fid: nat)
    | Wstat(fid: nat, args: WstatArgs)
    | Flush

  /** `Panics`: the handler indexes past a body that its length check let through. */
  datatype Parsed = Parsed(request: Request) | Malformed | Panics

  /** The names of a walk, up to the first one the body is too short for. */
  function ParseNames(body: seq<byte>, at: nat, count: nat): seq<Path>
    requires at <= |body|
    decreases count
  {
    if count == 0 || at + 2 > |body| then []
    else
      var n := Field(body, at, 2);
      if at + 2 + n > |body| then []
      else [body[at + 2..at + 2 + n]] + ParseNames(body, at + 2 + n, count - 1)
  }

  function ParseWstat(stat: seq<byte>): WstatArgs {
    if |stat| < 2 then TooShort
    else
      var data := stat[2..2 + Min(Field(stat, 0, 2), |stat| - 2)];
      if |data| < 6 then Nothing
      else
        var hasMode := |data| >= 23;
        var off1 := if hasMode then 23 else 19;
        var hasTime := |data| >= off1 + 8;
        var off2 := if hasTime then off1 + 8 else off1;
        var hasLength := |data| >= off2 + 8;
        var off := if hasLength then off2 + 8 else off2;
        var name :=
          if |data| >= off + 2 && 0 < Field(data, off, 2) <= |data| - off - 2
          then Some(data[off + 2..off + 2 + Field(data, off, 2)]) else None;
        Args(name, hasMode || hasTime || hasLength)
  }

  function ParseCreate(body: seq<byte>): Parsed {
    if |body| < 9 then Malformed
    else
      var n := Field(body, 4, 2);
      if 6 + n + 5 > |body| then Malformed
      else Parsed(Create(Field(body, 0, 4), body[6..6 + n], Field(body, 6 + n, 4) >= DMDIR))
  }

  function Parse(ty: byte, body: seq<byte>): Parsed {
    if ty == TVERSION then
      if |body| < 4 then Malformed else if |body| == 5 then Panics else Parsed(Version(Field(body, 0, 4)))
    else if ty == TATTACH then
      if |body| < 8 then Malformed else Parsed(Attach(Field(body, 0, 4)))
    else if ty == TWALK then
      if |body| < 9 then Malformed
      else if |body| == 9 then Panics
      else
        var count := Field(body, 8, 2);
        Parsed(Walk(Field(body, 0, 4), Field(body, 4, 4), ParseNames(body, 10, count), count))
    else if ty == TOPEN then
      if |body| < 5 then Malformed else Parsed(Open(Field(body, 0, 4)))
    else if ty == TCREATE then
      ParseCreate(body)
    else if ty == TREAD then
      if |body| < 16 then Malformed else Parsed(Read(Field(body, 0, 4), Field(body, 4, 8)))
    else if ty == TWRITE then
      if |body| < 16 then Malformed
      else
        var count := Field(body, 12, 4);
        Parsed(Write(Field(body, 0, 4), Field(body, 4, 8), body[16..16 + Min(count, |body| - 16)], count))
    else if ty == TCLUNK then
      if |body| < 4 then Malformed else Parsed(Clunk(Field(body, 0, 4)))
    else if ty == TREMOVE then
      if |body| < 4 then Malformed else Parsed(Remove(Field(body, 0, 4)))
    else if ty == TSTAT then
      if |body| < 4 then Malformed else Parsed(Stat(Field(body, 0, 4)))
    else if ty == TWSTAT then
      if |body| < 4 then Malformed else Parsed(Wstat(Field(body, 0, 4), ParseWstat(body[4..])))
    else if ty == TFLUSH then
      Parsed(Flush)
    else
      Malformed
  }

  /** The type a request arrives under. */
  function TypeOf(r: Request): byte {
    match r
    case Version(_) => TVERSION
    case Attach(_) => TATTACH
    case Walk(_, _, _, _) => TWALK
    case Open(_) => TOPEN
    case Create(_, _, _) => TCREATE
    case Read(_, _) => TREAD
    case Write(_, _, _, _) => TWRITE
    case Clunk(_) => TCLUNK
    case Remove(_) => TREMOVE
    case Stat(_) => TSTAT
    case Wstat(_, _) => TWSTAT
    case Flush => TFLUSH
  }

  lemma ParsedType(ty: byte, body: seq<byte>)
    requires Parse(ty, body).Parsed?
    ensures TypeOf(Parse(ty, body).request) == ty
  {
  }

  /** The shortest body that each handler accepts. */
  function MinBody(ty: byte): nat {
    if ty == TFLUSH then 0
    else if ty == TVERSION || ty == TCLUNK || ty == TREMOVE || ty == TSTAT || ty == TWSTAT then 4
    else if ty == TOPEN then 5
    else if ty == TATTACH then 8
    else if ty == TWALK || ty == TCREATE then 9
    else 16
  }

  predicate IsRequestType(ty: byte) {
    ty in {TVERSION, TATTACH, TFLUSH, TWALK, TOPEN, TCREATE, TREAD, TWRITE, TCLUNK, TREMOVE, TSTAT, TWSTAT}
  }

  /**
    What is refused before any handler acts: an unknown type, a body that is too
    short, and a create whose name, permissions and mode do not fit - nothing else.
    */
  lemma RefusedExactly(ty: byte, body: seq<byte>)
    ensures Parse(ty, body).Malformed? <==>
              || !IsRequestType(ty)
              || |body| < MinBody(ty)
              || (ty == TCREATE && |body| < 11 + Field(body, 4, 2))
  {
  }

  /** What a wstat body amounts to: attributes are asked for as soon as the mode field is there. */
  lemma WstatAmountsTo(stat: seq<byte>)
    ensures ParseWstat(stat).TooShort? <==> |stat| < 2
    ensures |stat| >= 2 ==>
              var n := Min(Field(stat, 0, 2), |stat| - 2);
              && (ParseWstat(stat).Nothing? <==> n < 6)
              && (ParseWstat(stat).Args? ==> (ParseWstat(stat).attrs <==> n >= 23))
  {
  }

  /** The message size the server settles on: the one nearest to what was asked for. */
  function ClampMsize(msize: nat): (r: nat)
    ensures MIN_MSIZE <= r <= MAX_MSIZE
    ensures MIN_MSIZE <= msize <= MAX_MSIZE ==> r == msize
    ensures msize < MIN_MSIZE ==> r == MIN_MSIZE
    ensures msize > MAX_MSIZE ==> r == MAX_MSIZE
  {
    if msize < MIN_MSIZE then MIN_MSIZE else if msize > MAX_MSIZE then MAX_MSIZE else msize
  }
}
