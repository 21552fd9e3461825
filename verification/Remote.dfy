/**
  The remote side of the SFTP connection, as the client may rely on it.

  The server answers requests in order, may refuse or lose any of them, and nobody else
  writes to the files. A reply that reports success tells the truth. What a request did
  when no success was reported is unknown, unless the server is `faithful`: then it did
  nothing.
 */
module Remote {
  import opened Wrappers

  type Bytes = seq<byte>

  // SHA-256, idealised as injective.
  datatype Digest = Sha256(preimage: Bytes)

  datatype Kind = Regular | Directory | SymbolicLink | Other

  // A directory entry: the POSIX mode, and the content of a regular file.
  datatype Node = Node(mode: nat, content: Bytes) {
    function Kind(): Kind { KindOfMode(mode) }
    function Permissions(): nat { mode % 0x200 }
  }

  type Files = map<string, Node>

  // `kind`: the POSIX type bits, mode & 0o170000.
  function KindOfMode(mode: nat): Kind
  {
    match (mode / 0x1000) % 16
    case 4 => Directory
    case 8 => Regular
    case 10 => SymbolicLink
    case _ => Other
  }

  function Lookup(files: Files, path: string): Option<Node>
  {
    if path in files then Some(files[path]) else None
  }

  predicate IsLink(files: Files, path: string)
  {
    path in files && files[path].Kind() == SymbolicLink
  }

  // The files agree everywhere except possibly at the given paths.
  ghost predicate AgreeExcept(before: Files, after: Files, paths: set<string>)
  {
    forall path :: path !in paths ==> Lookup(before, path) == Lookup(after, path)
  }

  // Open handles, by the path they were opened on.
  datatype FileSystem = FileSystem(files: Files, open: map<Bytes, string>)

  datatype Attrs = Attrs(size: Option<nat>, permissions: Option<nat>)

  datatype Request =
    | Realpath(path: string)
    | Stat(path: string)
    | Lstat(path: string)
    | OpenRead(path: string)
    | OpenWriteExclusive(path: string, permissions: nat)
    | Read(handle: Bytes, offset: nat, length: nat)
    | Write(handle: Bytes, offset: nat, data: Bytes)
    | Fsync(handle: Bytes)
    | Close(handle: Bytes)
    | PosixRename(source: string, target: string)
    | Remove(path: string)

  datatype Reply =
    | Status(code: nat)
    | Handle(handle: Bytes)
    | Data(data: Bytes)
    | Name(names: seq<string>)
    | Attributes(attrs: Attrs)

  datatype TransportError = Timeout | WriteFailed | ReadFailed | PacketTooLarge | Malformed

  // What the pipe delivers next: some packet with some id, or a transport error.
  datatype Delivery = Packet(id: nat, reply: Reply) | Lost(reason: TransportError)

  function AnswerTo(id: nat, delivery: Delivery): Option<Reply>
  {
    if delivery.Packet? && delivery.id == id then Some(delivery.reply) else None
  }

  const FX_OK := 0
  const FX_EOF := 1
  const FX_NO_SUCH_FILE := 2
  const FX_PERMISSION_DENIED := 3
  const FX_BAD_MESSAGE := 5
  const FX_OP_UNSUPPORTED := 8

  // The reply answers the request positively (an end of file, a missing entry and a
  // removal of a missing file are positive answers too).
  predicate Answers(request: Request, reply: Reply)
  {
    match request
    case Realpath(_) => reply.Name? && |reply.names| == 1
    case Stat(_) => reply.Attributes? && reply.attrs.permissions.Some?
    case Lstat(_) => (reply.Attributes? && reply.attrs.permissions.Some?) || reply == Status(FX_NO_SUCH_FILE)
    case OpenRead(_) => reply.Handle? && 1 <= |reply.handle| <= 256
    case OpenWriteExclusive(_, _) => reply.Handle? && 1 <= |reply.handle| <= 256
    case Read(_, _, _) => (reply.Data? && reply.data != []) || reply == Status(FX_EOF)
    case Write(_, _, _) => reply == Status(FX_OK)
    case Fsync(_) => reply == Status(FX_OK)
    case Close(_) => reply == Status(FX_OK)
    case PosixRename(_, _) => reply == Status(FX_OK)
    case Remove(_) => reply == Status(FX_OK) || reply == Status(FX_NO_SUCH_FILE)
  }

  // A request on the wire, and whether it was answered positively.
  datatype Sent = Sent(request: Request, answered: bool)

  predicate Positive(request: Request, answer: Option<Reply>)
  {
    answer.Some? && Answers(request, answer.value)
  }

  predicate Describes(attrs: Attrs, node: Node)
  {
    && attrs.permissions == Some(node.mode)
    && (attrs.size.Some? && node.Kind() == Regular ==> attrs.size.value == |node.content|)
  }

  // pwrite(2): bytes before the offset stay, a gap reads as zeroes.
  function Overwrite(content: Bytes, offset: nat, data: Bytes): Bytes
  {
    var padded := if offset <= |content| then content else content + seq(offset - |content|, _ => 0);
    padded[..offset] + data + if offset + |data| <= |padded| then padded[offset + |data|..] else []
  }

  // The meaning of a positive answer, and the state it leaves behind.
  predicate Truthful(canonical: string -> string, exactModes: bool, fs: FileSystem, request: Request, reply: Reply, next: FileSystem)
    requires Answers(request, reply)
  {
    match request
    case Realpath(path) => reply.names[0] == canonical(path) && !IsLink(fs.files, canonical(path)) && next == fs
    case Stat(path) =>
      path in fs.files && next == fs
      && (fs.files[path].Kind() != SymbolicLink ==> Describes(reply.attrs, fs.files[path]))
    case Lstat(path) =>
      next == fs
      && if reply.Status? then path !in fs.files else path in fs.files && Describes(reply.attrs, fs.files[path])
    case OpenRead(path) =>
      path in fs.files && reply.handle in next.open
      && next == fs.(open := fs.open[reply.handle := next.open[reply.handle]])
      && (fs.files[path].Kind() != SymbolicLink ==> next.open[reply.handle] == path)
    case OpenWriteExclusive(path, permissions) =>
      Created(exactModes, fs, path, permissions, next) && next.open == fs.open[reply.handle := path]
    case Read(handle, offset, length) =>
      next == fs && handle in fs.open && fs.open[handle] in fs.files
      && var content := fs.files[fs.open[handle]].content;
         if reply.Status? then |content| <= offset
         else |reply.data| <= length && offset + |reply.data| <= |content|
              && reply.data == content[offset..offset + |reply.data|]
    case Write(handle, offset, data) =>
      handle in fs.open && fs.open[handle] in fs.files
      && var path := fs.open[handle];
         next == fs.(files := fs.files[path := fs.files[path].(content := Overwrite(fs.files[path].content, offset, data))])
    case Fsync(_) => next == fs
    case Close(handle) => next == fs.(open := fs.open - {handle})
    case PosixRename(source, target) => Renamed(fs, source, target, next)
    case Remove(path) =>
      if reply == Status(FX_OK) then next == fs.(files := fs.files - {path}) else next == fs && path !in fs.files
  }

  predicate Created(exactModes: bool, fs: FileSystem, path: string, permissions: nat, next: FileSystem)
  {
    && path !in fs.files
    && path in next.files
    && next.files == fs.files[path := next.files[path]]
    && next.files[path].content == []
    && next.files[path].Kind() == Regular
    && (exactModes ==> next.files[path].Permissions() == permissions % 0x200)
  }

  predicate Renamed(fs: FileSystem, source: string, target: string, next: FileSystem)
  {
    source in fs.files && next == fs.(files := fs.files[target := fs.files[source]] - ({source} - {target}))
  }

  // What a request that was not answered positively may have done.
  predicate Unanswered(faithful: bool, fs: FileSystem, request: Request, next: FileSystem)
  {
    || next == fs
    || (!faithful
        && match request
           case Realpath(_) => false
           case Stat(_) => false
           case Lstat(_) => false
           case OpenRead(_) => false
           case OpenWriteExclusive(path, permissions) =>
             Created(false, fs, path, permissions, next) && next.open == fs.open
           case Read(_, _, _) => false
           case Write(handle, _, _) =>
             handle in fs.open && fs.open[handle] in fs.files
             && var path := fs.open[handle];
                path in next.files && next == fs.(files := fs.files[path := fs.files[path].(content := next.files[path].content)])
           case Fsync(_) => false
           case Close(handle) => next == fs.(open := fs.open - {handle})
           case PosixRename(source, target) => Renamed(fs, source, target, next)
           case Remove(path) => next == fs.(files := fs.files - {path}))
  }

  predicate Exchanged(
      canonical: string -> string, exactModes: bool, faithful: bool,
      fs: FileSystem, request: Request, answer: Option<Reply>, next: FileSystem)
  {
    if Positive(request, answer)
    then Truthful(canonical, exactModes, fs, request, answer.value, next)
    else Unanswered(faithful, fs, request, next)
  }

  class Server {
    // REALPATH; with no other writer it is a function of the path.
    const canonical: string -> string
    // An error reply means that the request had no effect.
    const faithful: bool
    // A created file gets exactly the requested permission bits (no umask).
    const exactModes: bool

    var fs: FileSystem
    var lastId: nat

    // Every request received, and the files at first and after each of them.
    ghost var requests: seq<Sent>
    ghost var history: seq<Files>

    constructor (canonical: string -> string, faithful: bool, exactModes: bool, files: Files)
      ensures this.canonical == canonical && this.faithful == faithful && this.exactModes == exactModes
      ensures fs == FileSystem(files, map[]) && lastId == 0 && requests == [] && history == [files]
      ensures Recorded()
    {
      this.canonical, this.faithful, this.exactModes := canonical, faithful, exactModes;
      fs, lastId, requests, history := FileSystem(files, map[]), 0, [], [files];
    }

    ghost predicate Recorded()
      reads this
    {
      history != [] && history[|history| - 1] == fs.files
    }

    // One request, and whatever packet the pipe delivers next. Only a packet that carries
    // the id of this request answers it.
    method Exchange(id: nat, request: Request) returns (delivery: Delivery)
      requires lastId < id
      modifies this
      ensures lastId == id
      ensures requests == old(requests) + [Sent(request, Positive(request, AnswerTo(id, delivery)))]
      ensures history == old(history) + [fs.files]
      ensures Exchanged(canonical, exactModes, faithful, old(fs), request, AnswerTo(id, delivery), fs)
    {
      var idle := (Lost(Timeout), fs);
      assert Exchanged(canonical, exactModes, faithful, fs, request, AnswerTo(id, idle.0), idle.1);
      var outcome: (Delivery, FileSystem) :|
        Exchanged(canonical, exactModes, faithful, fs, request, AnswerTo(id, outcome.0), outcome.1);
      lastId := id;
      delivery, fs := outcome.0, outcome.1;
      requests := requests + [Sent(request, Positive(request, AnswerTo(id, delivery)))];
      history := history + [fs.files];
    }
  }
}
