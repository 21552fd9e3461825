/**
  The SFTP client of the agent daemon: request ids, the chunked read and write loops,
  upload inspection, and the atomic upload protocol.
 */
module SftpClient {
  import opened Wrappers
  import opened Text
  import opened Remote

  const MAX_UPLOAD_BYTES := 8 * 1024 * 1024
  const CHUNK_BYTES := 32 * 1024
  const MAX_PATH_BYTES := 1024
  const MAX_COMPONENT_BYTES := 255
  const U32_MAX := 0xFFFF_FFFF
  const U64_LIMIT := 0x1_0000_0000_0000_0000

  datatype Reason =
    | Transport(cause: TransportError)
    | ProtocolError
    | RequestIdExhausted
    | NotFound
    | PermissionDenied
    | BadMessage
    | OperationUnsupported
    | Failure
    | WriteFailed
    | FsyncFailed
    | RenameFailed
    | CloseFailed
    | SizeOverflow
    | WriteExtensionUnavailable
    | PathInvalid
    | UnsafeName
    | UploadPathInvalid
    | PathOutsideHome
    | NotDirectory
    | NotRegularFile
    | TargetSymlinkDenied
    | TargetTypeUnsupported
    | UploadTargetTooLarge
    | UploadTooLarge
    | TemporarySuffixInvalid
    | TargetChanged
    | TemporaryCleanupFailed
    | ManualRecoveryRequired

  datatype TargetState = Create | Replace

  datatype Precondition = Precondition(state: TargetState, digest: Option<Digest>, size: nat, permissions: nat)

  datatype Inspection = Inspection(precondition: Precondition, parent: string, target: string)

  // ---------- Names and paths ----------

  predicate IsControl(c: char) { c < ' ' || c == 127 as char }

  predicate ValidName(name: string, limit: nat)
  {
    && name != "" && name != "." && name != ".." && |name| <= limit
    && forall i :: 0 <= i < |name| ==> !IsControl(name[i])
  }

  predicate ValidFilePath(path: string)
  {
    || path == ""
    || (path[0] != '/' && |path| <= MAX_PATH_BYTES
        && forall i :: 0 <= i < |Split(path, '/')| ==> ValidName(Split(path, '/')[i], MAX_COMPONENT_BYTES))
  }

  predicate ValidEntryName(name: string) { ValidName(name, MAX_COMPONENT_BYTES) && '/' !in name }

  const RESERVED_PREFIX := ".jw-agent-upload-"

  predicate Reserved(name: string) { RESERVED_PREFIX <= name }

  predicate ValidSuffix(suffix: string)
  {
    |suffix| == 32 && forall i :: 0 <= i < |suffix| ==> '0' <= suffix[i] <= '9' || 'a' <= suffix[i] <= 'f'
  }

  function ParentAndName(path: string): (string, string)
  {
    match RSplitOnce(path, '/')
    case Some(pair) => pair
    case None => ("", path)
  }

  function Candidate(home: string, path: string): string
  {
    if path == "" then home else home + "/" + path
  }

  function CanonicalParent(canonical: string -> string, home: string, path: string): string
  {
    canonical(Candidate(home, ParentAndName(path).0))
  }

  function TargetPath(canonical: string -> string, home: string, path: string): string
  {
    CanonicalParent(canonical, home, path) + "/" + ParentAndName(path).1
  }

  function TemporaryPath(parent: string, suffix: string): string
  {
    parent + "/" + RESERVED_PREFIX + suffix + ".tmp"
  }

  // The temporary name can collide neither with the target nor with the directory.
  lemma TemporaryIsFresh(parent: string, name: string, suffix: string)
    requires !Reserved(name) && ValidSuffix(suffix)
    ensures TemporaryPath(parent, suffix) != parent + "/" + name
    ensures TemporaryPath(parent, suffix) != parent && parent + "/" + name != parent
    ensures exists child :: '/' !in child && TemporaryPath(parent, suffix) == parent + "/" + child
  {
    var child := RESERVED_PREFIX + suffix + ".tmp";
    assert TemporaryPath(parent, suffix) == parent + "/" + child;
    var k := |parent| + 1;
    assert TemporaryPath(parent, suffix)[k..] == child;
    assert (parent + "/" + name)[k..] == name;
    assert Reserved(child);
  }

  // Every path of an upload request is a direct child of a directory inside the home.
  lemma UploadStaysInHome(canonical: string -> string, home: string, files: Files, path: string, suffix: string)
    requires Inspect(canonical, home, files, path).Ok? && ValidSuffix(suffix)
    ensures var found := Inspect(canonical, home, files, path).value;
            && Split(home, '/') <= Split(found.parent, '/')
            && Split(found.target, '/') == Split(found.parent, '/') + [ParentAndName(path).1]
            && Split(TemporaryPath(found.parent, suffix), '/') == Split(found.parent, '/') + [TemporaryName(suffix)]
  {
    var found := Inspect(canonical, home, files, path).value;
    HomeScopeIsComponentPrefix(home, found.parent);
    ChildInHome(home, found.parent, ParentAndName(path).1);
    TemporaryIsChild(found.parent, suffix);
    ChildInHome(home, found.parent, TemporaryName(suffix));
  }

  function TemporaryName(suffix: string): string
  {
    RESERVED_PREFIX + suffix + ".tmp"
  }

  lemma TemporaryIsChild(parent: string, suffix: string)
    requires ValidSuffix(suffix)
    ensures '/' !in TemporaryName(suffix)
    ensures TemporaryPath(parent, suffix) == parent + "/" + TemporaryName(suffix)
  {
    assert '/' !in RESERVED_PREFIX && '/' !in suffix && '/' !in ".tmp";
  }

  // ---------- What the wire answers mean ----------

  function StatusError(code: nat): Reason
  {
    if code == FX_NO_SUCH_FILE then NotFound
    else if code == FX_PERMISSION_DENIED then PermissionDenied
    else if code == FX_BAD_MESSAGE then BadMessage
    else if code == FX_OP_UNSUPPORTED then OperationUnsupported
    else Failure
  }

  // `require_ok_status`
  function RequireOk(reply: Reply, fallback: Reason): Result<(), Reason>
  {
    if !reply.Status? then Err(ProtocolError)
    else if reply.code == FX_OK then Ok(())
    else if reply.code == FX_OP_UNSUPPORTED then Err(WriteExtensionUnavailable)
    else if StatusError(reply.code) == Failure then Err(fallback)
    else Err(StatusError(reply.code))
  }

  // `handle_response`
  function HandleOf(reply: Reply): Result<Bytes, Reason>
  {
    match reply
    case Handle(handle) => if 1 <= |handle| <= 256 then Ok(handle) else Err(ProtocolError)
    case Status(code) => Err(StatusError(code))
    case _ => Err(ProtocolError)
  }

  // Why a request counts as failed: the transport error, the status, or a reply that does
  // not answer it.
  function Complaint(request: Request, r: Result<Reply, Reason>): Reason
  {
    if r.Err? then r.error
    else if request.Close? then CloseFailed
    else if !r.value.Status? then ProtocolError
    else if request.Write? then Refusal(r.value.code, Reason.WriteFailed)
    else if request.Fsync? then Refusal(r.value.code, FsyncFailed)
    else if request.PosixRename? then Refusal(r.value.code, RenameFailed)
    else StatusError(r.value.code)
  }

  function Refusal(code: nat, fallback: Reason): Reason
  {
    if code == FX_OP_UNSUPPORTED then WriteExtensionUnavailable
    else if code == FX_NO_SUCH_FILE then NotFound
    else if code == FX_PERMISSION_DENIED then PermissionDenied
    else if code == FX_BAD_MESSAGE then BadMessage
    else fallback
  }

  function KindOf(attrs: Attrs): Kind
  {
    if attrs.permissions.None? then Kind.Other else KindOfMode(attrs.permissions.value)
  }

  // ---------- The outcome of an inspection and of an upload, on the files alone ----------

  function ReadOutcome(node: Node, limit: nat, tooLarge: Reason): Result<Bytes, Reason>
  {
    if node.Kind() != Regular then Err(NotRegularFile)
    else if |node.content| > limit then Err(tooLarge)
    else Ok(node.content)
  }

  function InspectTarget(target: Option<Node>): Result<Precondition, Reason>
  {
    if target.None? then Ok(Precondition(Create, None, 0, 0x180))
    else if target.value.Kind() == SymbolicLink then Err(TargetSymlinkDenied)
    else if target.value.Kind() != Regular then Err(TargetTypeUnsupported)
    else if |target.value.content| > MAX_UPLOAD_BYTES then Err(UploadTargetTooLarge)
    else Ok(Precondition(Replace, Some(Sha256(target.value.content)), |target.value.content|, target.value.Permissions()))
  }

  // What an inspection finds when the server answers every request.
  function Inspect(canonical: string -> string, home: string, files: Files, path: string): Result<Inspection, Reason>
  {
    if !ValidFilePath(path) then Err(PathInvalid)
    else if path == "" then Err(UploadPathInvalid)
    else
      var (parent, name) := ParentAndName(path);
      if !ValidEntryName(name) then Err(UnsafeName)
      else if Reserved(name) then Err(UploadPathInvalid)
      else if !ValidFilePath(parent) then Err(PathInvalid)
      else
        var directory := CanonicalParent(canonical, home, path);
        var target := TargetPath(canonical, home, path);
        if !InHome(home, directory) then Err(PathOutsideHome)
        else if directory !in files then Err(NotFound)
        else if files[directory].Kind() != Directory then Err(NotDirectory)
        else
          match InspectTarget(Lookup(files, target))
          case Ok(precondition) => Ok(Inspection(precondition, directory, target))
          case Err(reason) => Err(reason)
  }

  // Everything an upload checks before it creates its temporary file.
  function Admit(
      supported: bool, canonical: string -> string, home: string, files: Files,
      path: string, expected: Precondition, bytes: Bytes, suffix: string): Result<Inspection, Reason>
  {
    if !supported then Err(WriteExtensionUnavailable)
    else if |bytes| > MAX_UPLOAD_BYTES then Err(UploadTooLarge)
    else if !ValidSuffix(suffix) then Err(TemporarySuffixInvalid)
    else
      match Inspect(canonical, home, files, path)
      case Err(reason) => Err(reason)
      case Ok(inspection) => if inspection.precondition != expected then Err(TargetChanged) else Ok(inspection)
  }

  // Permission bits: read and write for the owner, nothing for anyone else.
  predicate OwnerOnly(permissions: nat)
  {
    permissions % 0x40 == 0 && (permissions / 0x40) % 8 == 6
  }

  // A new file is private to its owner, and a replaced one keeps its permissions.
  predicate ModeKept(before: Option<Node>, after: Option<Node>)
  {
    after.Some? && if before.None? then OwnerOnly(after.value.Permissions()) else after.value.Permissions() == before.value.Permissions()
  }

  /**
    An admitted upload found exactly what its caller expected: nothing, or a regular file
    with the expected content and permissions. No update of someone else is lost.
   */
  lemma AdmittedAsExpected(
      supported: bool, canonical: string -> string, home: string, files: Files,
      path: string, expected: Precondition, bytes: Bytes, suffix: string)
    requires Admit(supported, canonical, home, files, path, expected, bytes, suffix).Ok?
    ensures var target := Lookup(files, TargetPath(canonical, home, path));
            && Admit(supported, canonical, home, files, path, expected, bytes, suffix).value.target == TargetPath(canonical, home, path)
            && (expected.state == Create <==> target.None?)
            && (target.None? ==> OwnerOnly(expected.permissions))
            && (target.Some? ==>
                  && target.value.Kind() == Regular && expected.digest == Some(Sha256(target.value.content))
                  && expected.size == |target.value.content| <= MAX_UPLOAD_BYTES && expected.permissions == target.value.Permissions())
  {
  }

  // What is expected of the target is what is there: nothing, or a regular file of at most
  // 8 MiB with this content and these permissions.
  predicate AsExpected(expected: Precondition, target: Option<Node>)
  {
    if target.None? then expected == Precondition(Create, None, 0, 0x180)
    else
      && target.value.Kind() == Regular && |target.value.content| <= 8_388_608
      && expected == Precondition(Replace, Some(Sha256(target.value.content)), |target.value.content|, target.value.Permissions())
  }

  // A relative path whose last component may be uploaded to.
  predicate UploadPath(path: string)
  {
    var (parent, name) := ParentAndName(path);
    path != "" && ValidFilePath(path) && ValidFilePath(parent) && ValidEntryName(name) && !Reserved(name)
  }

  /**
    An upload is admitted exactly when the server can do it, the content is small enough, the
    temporary name is well-formed, the path is one of a file in a directory inside the home,
    and the target is as expected.
   */
  lemma AdmittedExactly(
      supported: bool, canonical: string -> string, home: string, files: Files,
      path: string, expected: Precondition, bytes: Bytes, suffix: string)
    ensures var parent := CanonicalParent(canonical, home, path);
            Admit(supported, canonical, home, files, path, expected, bytes, suffix).Ok? <==>
              && supported && |bytes| <= 8_388_608 && ValidSuffix(suffix) && UploadPath(path)
              && Split(home, '/') <= Split(parent, '/') && parent in files && files[parent].Kind() == Directory
              && AsExpected(expected, Lookup(files, TargetPath(canonical, home, path)))
  {
    HomeScopeIsComponentPrefix(home, CanonicalParent(canonical, home, path));
  }

  // The target is the old entry or the complete new content, never anything in between.
  ghost predicate OldOrNew(before: Option<Node>, now: Option<Node>, bytes: Bytes)
  {
    now == before || (now.Some? && now.value.Kind() == Regular && now.value.content == bytes)
  }

  // What the result of an upload says about the target.
  ghost predicate ResultIsTruth(
      before: Option<Node>, after: Option<Node>, bytes: Bytes, permissions: nat, result: Result<Precondition, Reason>)
  {
    && OldOrNew(before, after, bytes)
    && (result.Ok? ==>
          && after.Some? && after.value.Kind() == Regular
          && after.value.content == bytes && after.value.Permissions() == permissions
          && result.value == Precondition(Replace, Some(Sha256(bytes)), |bytes|, permissions))
    && (result.Err? && result.error != ManualRecoveryRequired ==> after == before)
  }

  // ---------- Histories ----------

  // Only the given paths differ from `files` in any of the new states.
  ghost predicate Confined(before: seq<Files>, after: seq<Files>, files: Files, paths: set<string>)
  {
    && before <= after
    && forall i :: |before| <= i < |after| ==> AgreeExcept(files, after[i], paths)
  }

  // In every new state the target is old or complete, and nothing else but the temporary file differs.
  ghost predicate Atomic(past: seq<Files>, now: seq<Files>, before: Files, target: string, temporary: string, bytes: Bytes)
  {
    && past <= now
    && forall i :: |past| <= i < |now| ==>
         && AgreeExcept(before, now[i], {target, temporary})
         && OldOrNew(Lookup(before, target), Lookup(now[i], target), bytes)
  }

  // The temporary file, and only it, was added, with exactly the given content.
  ghost predicate IsStored(before: Files, after: Files, temporary: string, bytes: Bytes)
  {
    && temporary !in before
    && temporary in after
    && after == before[temporary := after[temporary]]
    && after[temporary].content == bytes
    && after[temporary].Kind() == Regular
  }

  // The read-back shows the new content exactly with the expected mode.
  predicate Matches(seen: Precondition, bytes: Bytes, permissions: nat)
  {
    seen.digest == Some(Sha256(bytes)) && seen.size == |bytes| && seen.permissions == permissions
  }

  // What the read-back proves: a match is the new file, and an unchanged view without a
  // match means that the rename did not happen.
  lemma ReadBack(before: Files, ready: Files, settled: Files, target: string, temporary: string, bytes: Bytes, old': Precondition, seen: Precondition)
    requires IsStored(before, ready, temporary, bytes) && temporary != target
    requires settled == ready || settled == ready[target := ready[temporary]] - {temporary}
    requires InspectTarget(Lookup(before, target)) == Ok(old') && InspectTarget(Lookup(settled, target)) == Ok(seen)
    ensures Matches(seen, bytes, old'.permissions) ==>
              ResultIsTruth(Lookup(before, target), Lookup(settled, target), bytes, old'.permissions, Ok(seen))
    ensures !Matches(seen, bytes, old'.permissions) && seen == old' ==> settled == ready
    ensures settled != ready && ready[temporary].Permissions() == old'.permissions ==> Matches(seen, bytes, old'.permissions)
  {
  }

  // A rename that happened is recognised by the inspection after it.
  lemma RenamedMatches(before: Files, ready: Files, settled: Files, target: string, temporary: string, bytes: Bytes, permissions: nat)
    requires IsStored(before, ready, temporary, bytes) && temporary != target && |bytes| <= MAX_UPLOAD_BYTES
    requires settled == ready[target := ready[temporary]] - {temporary}
    ensures var seen := InspectTarget(Lookup(settled, target));
            seen.Ok? && (ready[temporary].Permissions() == permissions ==> Matches(seen.value, bytes, permissions))
  {
  }

  function WithTarget(precondition: Result<Precondition, Reason>, current: Inspection): Result<Inspection, Reason>
  {
    match precondition
    case Ok(value) => Ok(Inspection(value, current.parent, current.target))
    case Err(reason) => Err(reason)
  }

  // The new content was seen in place, and the old one was seen after a refused rename.
  predicate Seen(after: Result<Inspection, Reason>, bytes: Bytes, permissions: nat)
  {
    after.Ok? && Matches(after.value.precondition, bytes, permissions)
  }

  predicate Refused(renamed: Result<(), Reason>, after: Result<Inspection, Reason>, current: Inspection)
  {
    renamed.Err? && after.Ok? && after.value.precondition == current.precondition
  }

  // An inspection that was answered recognises what the rename did.
  lemma Recognised(before: Files, ready: Files, settled: Files, current: Inspection, temporary: string, bytes: Bytes,
                   renamed: Result<(), Reason>, after: Result<Inspection, Reason>)
    requires IsStored(before, ready, temporary, bytes) && temporary != current.target && |bytes| <= MAX_UPLOAD_BYTES
    requires InspectTarget(Lookup(before, current.target)) == Ok(current.precondition)
    requires settled == ready || settled == ready[current.target := ready[temporary]] - {temporary}
    requires renamed.Ok? ==> settled != ready
    ensures after == WithTarget(InspectTarget(Lookup(settled, current.target)), current) ==>
              if settled == ready then Refused(renamed, after, current)
              else ready[temporary].Permissions() == current.precondition.permissions ==> Seen(after, bytes, current.precondition.permissions)
  {
    if settled != ready {
      RenamedMatches(before, ready, settled, current.target, temporary, bytes, current.precondition.permissions);
    }
  }

  // The rename happened, or did not; a reported success is one, a faithful refusal is one too.
  ghost predicate Settled(ready: Files, settled: Files, temporary: string, target: string, reported: bool, faithful: bool)
    requires temporary in ready
  {
    || (!reported && settled == ready)
    || ((reported || !faithful) && settled == ready[target := ready[temporary]] - {temporary})
  }

  ghost predicate MayLeaveTemporary(r: Result<Precondition, Reason>, before: Files, after: Files, target: string)
  {
    || r == Err(TemporaryCleanupFailed)
    || r == Err(ManualRecoveryRequired)
    || (r.Ok? && Lookup(after, target) == Lookup(before, target))
  }

  // Reasons that come from a single exchange, as opposed to a verdict of the protocol.
  predicate OnTheWire(reason: Reason)
  {
    !(reason in {TargetChanged, TemporaryCleanupFailed, ManualRecoveryRequired})
  }

  lemma AtomicConfined(past: seq<Files>, now: seq<Files>, before: Files, target: string, temporary: string, bytes: Bytes)
    requires temporary != target
    requires Confined(past, now, before, {}) || Confined(past, now, before, {temporary})
    ensures Atomic(past, now, before, target, temporary, bytes)
  {
    assert Atomic(past, past, before, target, temporary, bytes);
    AtomicExtends(past, past, now, before, before, target, temporary, bytes);
  }

  lemma AtomicJoins(past: seq<Files>, middle: seq<Files>, now: seq<Files>, before: Files, target: string, temporary: string, bytes: Bytes)
    requires Atomic(past, middle, before, target, temporary, bytes)
    requires Atomic(middle, now, before, target, temporary, bytes)
    ensures Atomic(past, now, before, target, temporary, bytes)
  {
    forall i | |past| <= i < |now|
      ensures AgreeExcept(before, now[i], {target, temporary}) && OldOrNew(Lookup(before, target), Lookup(now[i], target), bytes)
    {
      if i < |middle| {
        assert now[i] == middle[i];
      }
    }
  }

  lemma ConfinedJoins(past: seq<Files>, middle: seq<Files>, now: seq<Files>, before: Files, settled: Files, path: string)
    requires Confined(past, middle, before, {path}) && Confined(middle, now, settled, {path}) && AgreeExcept(before, settled, {path})
    ensures Confined(past, now, before, {path})
  {
    forall i | |past| <= i < |now|
      ensures AgreeExcept(before, now[i], {path})
    {
      if i < |middle| {
        assert now[i] == middle[i];
      } else {
        assert AgreeExcept(settled, now[i], {path});
      }
    }
  }

  // A later stretch that touches only the temporary file keeps the run atomic.
  lemma AtomicExtends(
      past: seq<Files>, middle: seq<Files>, now: seq<Files>, before: Files, settled: Files,
      target: string, temporary: string, bytes: Bytes)
    requires Atomic(past, middle, before, target, temporary, bytes)
    requires Confined(middle, now, settled, {}) || Confined(middle, now, settled, {temporary})
    requires AgreeExcept(before, settled, {target, temporary}) && temporary != target
    requires OldOrNew(Lookup(before, target), Lookup(settled, target), bytes)
    ensures Atomic(past, now, before, target, temporary, bytes)
  {
    forall i | |past| <= i < |now|
      ensures AgreeExcept(before, now[i], {target, temporary}) && OldOrNew(Lookup(before, target), Lookup(now[i], target), bytes)
    {
      if i < |middle| {
        assert now[i] == middle[i];
      } else {
        assert AgreeExcept(settled, now[i], {temporary});
        assert Lookup(settled, target) == Lookup(now[i], target);
      }
    }
  }

  lemma RenameIsAtomic(before: Files, ready: Files, settled: Files, temporary: string, target: string, bytes: Bytes)
    requires IsStored(before, ready, temporary, bytes) && temporary != target
    requires settled == ready || settled == ready[target := ready[temporary]] - {temporary}
    ensures AgreeExcept(before, settled, {target, temporary})
    ensures OldOrNew(Lookup(before, target), Lookup(settled, target), bytes)
    ensures settled != ready ==> Lookup(settled, target) == Some(ready[temporary]) && temporary !in settled
  {
  }

  predicate Mutates(request: Request)
  {
    request.OpenWriteExclusive? || request.PosixRename? || request.Remove?
  }

  // Every new request that names a path to change is one of the upload's own three.
  ghost predicate UploadRequests(before: seq<Sent>, after: seq<Sent>, temporary: string, target: string)
  {
    && before <= after
    && forall i :: |before| <= i < |after| && Mutates(after[i].request) ==> OwnRequest(after[i].request, temporary, target)
  }

  ghost predicate OwnRequest(request: Request, temporary: string, target: string)
  {
    || (request.OpenWriteExclusive? && request.path == temporary)
    || request == PosixRename(temporary, target)
    || request == Remove(temporary)
  }

  ghost predicate NoMutation(before: seq<Sent>, after: seq<Sent>)
  {
    && before <= after
    && forall i :: |before| <= i < |after| ==> !Mutates(after[i].request)
  }

  lemma RequestsJoin(past: seq<Sent>, middle: seq<Sent>, now: seq<Sent>, temporary: string, target: string)
    requires UploadRequests(past, middle, temporary, target) && UploadRequests(middle, now, temporary, target)
    ensures UploadRequests(past, now, temporary, target)
  {
    forall i | |past| <= i < |now| && Mutates(now[i].request)
      ensures OwnRequest(now[i].request, temporary, target)
    {
      if i < |middle| {
        assert now[i] == middle[i];
      }
    }
  }

  // ---------- Flushed before published ----------

  // The bytes in chunks of 32 KiB at increasing offsets, each write answered positively.
  function Writes(handle: Bytes, bytes: Bytes): seq<Sent>
  {
    if bytes == [] then []
    else
      var start := (|bytes| - 1) / CHUNK_BYTES * CHUNK_BYTES;
      Writes(handle, bytes[..start]) + [Sent(Write(handle, start, bytes[start..]), true)]
  }

  // A file filled through one handle: all of it written, then flushed, then closed.
  function Flushed(handle: Bytes, bytes: Bytes): seq<Sent>
  {
    Writes(handle, bytes) + [Sent(Fsync(handle), true), Sent(Close(handle), true)]
  }

  // The temporary file created exclusively under the handle, and filled through it.
  function Storing(temporary: string, permissions: nat, handle: Bytes, bytes: Bytes): seq<Sent>
  {
    [Sent(OpenWriteExclusive(temporary, permissions), true)] + Flushed(handle, bytes)
  }

  ghost predicate EndsWith(requests: seq<Sent>, trace: seq<Sent>)
  {
    |trace| <= |requests| && requests[|requests| - |trace|..] == trace
  }

  // Whatever was renamed was stored right before: no new rename without that trace.
  ghost predicate RenamedAfter(before: seq<Sent>, after: seq<Sent>, trace: seq<Sent>)
  {
    && before <= after
    && forall i :: |before| <= i < |after| && after[i].request.PosixRename? ==> EndsWith(after[..i], trace)
  }

  ghost predicate NoRename(before: seq<Sent>, after: seq<Sent>)
  {
    && before <= after
    && forall i :: |before| <= i < |after| ==> !after[i].request.PosixRename?
  }

  lemma RenamedAfterJoins(past: seq<Sent>, middle: seq<Sent>, now: seq<Sent>, trace: seq<Sent>)
    requires NoRename(past, middle) && RenamedAfter(middle, now, trace)
    ensures RenamedAfter(past, now, trace)
  {
    assert forall i :: |past| <= i < |middle| ==> now[i] == middle[i];
  }

  // One request at most is sent right after the trace, and no rename after that.
  lemma RenamedOnce(past: seq<Sent>, middle: seq<Sent>, now: seq<Sent>, request: Sent, trace: seq<Sent>)
    requires EndsWith(past, trace) && past <= middle <= past + [request] && NoRename(middle, now)
    ensures RenamedAfter(past, now, trace)
  {
    forall i | |past| <= i < |now| && now[i].request.PosixRename?
      ensures EndsWith(now[..i], trace)
    {
      if i < |middle| {
        assert now[..i] == past;
      }
    }
  }

  lemma RenamedThenNone(past: seq<Sent>, middle: seq<Sent>, now: seq<Sent>, trace: seq<Sent>)
    requires RenamedAfter(past, middle, trace) && NoRename(middle, now)
    ensures RenamedAfter(past, now, trace)
  {
    forall i | |past| <= i < |now| && now[i].request.PosixRename?
      ensures EndsWith(now[..i], trace)
    {
      if i < |middle| {
        assert now[i] == middle[i] && now[..i] == middle[..i];
      }
    }
  }

  predicate ChunkStart(offset: nat, size: nat)
  {
    offset % CHUNK_BYTES == 0 || offset == size
  }

  function ChunkEnd(offset: nat, size: nat): (end: nat)
    requires offset < size && ChunkStart(offset, size)
    ensures offset < end <= size && end <= offset + CHUNK_BYTES && ChunkStart(end, size)
  {
    if offset + CHUNK_BYTES <= size then offset + CHUNK_BYTES else size
  }

  /**
    Once the temporary file was created, a failure ends with a request to remove it. If that
    was answered the file is gone, and if not the error says so.
   */
  ghost predicate Withdrawn(before: seq<Sent>, after: seq<Sent>, temporary: string, files: Files, error: Reason)
  {
    Creates(before, after) ==> EndsRemoved(after, temporary, files, error)
  }

  ghost predicate EndsRemoved(requests: seq<Sent>, temporary: string, files: Files, error: Reason)
  {
    && requests != []
    && var last := requests[|requests| - 1];
    && last.request == Remove(temporary)
    && (if last.answered then temporary !in files && error != TemporaryCleanupFailed
        else error == TemporaryCleanupFailed || error == ManualRecoveryRequired)
  }

  ghost predicate Creates(before: seq<Sent>, after: seq<Sent>)
  {
    exists i :: |before| <= i < |after| && after[i].request.OpenWriteExclusive? && after[i].answered
  }

  // A rename was asked for and not confirmed.
  ghost predicate RenameInDoubt(before: seq<Sent>, after: seq<Sent>)
  {
    exists i :: |before| <= i < |after| && after[i].request.PosixRename? && !after[i].answered
  }

  // The requests that store the temporary file, and perhaps remove it again.
  lemma StoreRequests(past: seq<Sent>, opened': seq<Sent>, filled: seq<Sent>, now: seq<Sent>, temporary: string, permissions: nat, target: string)
    requires opened' == past + [Sent(OpenWriteExclusive(temporary, permissions), true)] && NoMutation(opened', filled)
    requires now == filled || now == filled + [Sent(Remove(temporary), true)] || now == filled + [Sent(Remove(temporary), false)]
    ensures UploadRequests(past, now, temporary, target) && NoRename(past, now)
  {
    forall i | |past| <= i < |now|
      ensures !now[i].request.PosixRename? && (Mutates(now[i].request) ==> OwnRequest(now[i].request, temporary, target))
    {
      if i == |past| {
        assert now[i] == opened'[i];
      } else if i < |filled| {
        assert now[i] == filled[i];
      }
    }
  }

  ghost predicate NoCreation(before: seq<Sent>, after: seq<Sent>)
  {
    before <= after && forall i :: |before| <= i < |after| ==> !after[i].request.OpenWriteExclusive?
  }

  // The rename, and requests that change nothing.
  lemma RenameRequests(past: seq<Sent>, middle: seq<Sent>, now: seq<Sent>, temporary: string, target: string, ok: bool)
    requires middle == past + [Sent(PosixRename(temporary, target), ok)] || (middle == past && !ok)
    requires NoMutation(middle, now)
    ensures NoCreation(past, now) && (RenameInDoubt(past, now) ==> !ok)
  {
    forall i | |past| <= i < |now|
      ensures !now[i].request.OpenWriteExclusive? && (now[i].request.PosixRename? ==> now[i].answered == ok)
    {
      if i < |middle| {
        assert now[i] == middle[i];
      }
    }
  }

  lemma DoubtBefore(past: seq<Sent>, middle: seq<Sent>, now: seq<Sent>)
    requires past <= middle && NoRename(middle, now) && RenameInDoubt(past, now)
    ensures RenameInDoubt(past, middle)
  {
    var i :| |past| <= i < |now| && now[i].request.PosixRename? && !now[i].answered;
    assert i < |middle| && middle[i] == now[i];
  }

  // A stretch that creates nothing changes nothing about that.
  lemma WithdrawnLater(past: seq<Sent>, middle: seq<Sent>, now: seq<Sent>, temporary: string, files: Files, error: Reason)
    requires NoMutation(past, middle) && middle <= now && Withdrawn(middle, now, temporary, files, error)
    ensures Withdrawn(past, now, temporary, files, error)
  {
    assert forall i :: |past| <= i < |middle| ==> now[i] == middle[i];
  }

  lemma DoubtLater(past: seq<Sent>, middle: seq<Sent>, now: seq<Sent>)
    requires NoRename(past, middle) && middle <= now && RenameInDoubt(past, now)
    ensures RenameInDoubt(middle, now)
  {
    assert forall i :: |past| <= i < |middle| ==> now[i] == middle[i];
  }

  lemma NextWrite(past: seq<Sent>, handle: Bytes, bytes: Bytes, i: nat, j: nat)
    requires ChunkStart(i, |bytes|) && i < j <= |bytes| && j <= i + CHUNK_BYTES
    ensures past + Writes(handle, bytes[..i]) + [Sent(Write(handle, i, bytes[i..j]), true)] == past + Writes(handle, bytes[..j])
  {
    assert (j - 1) / CHUNK_BYTES * CHUNK_BYTES == i;
    assert bytes[..j][..i] == bytes[..i] && bytes[..j][i..] == bytes[i..j];
    Associative(past, Writes(handle, bytes[..i]), [Sent(Write(handle, i, bytes[i..j]), true)]);
  }

  // Writing names no path, also if the last write is not acknowledged.
  lemma {:induction false} WritesNameNoPath(past: seq<Sent>, handle: Bytes, bytes: Bytes, now: seq<Sent>, last: Sent)
    requires past + Writes(handle, bytes) <= now <= past + Writes(handle, bytes) + [last] && last.request.Write?
    ensures NoMutation(past, now)
  {
    if bytes != [] {
      var start := (|bytes| - 1) / CHUNK_BYTES * CHUNK_BYTES;
      var early, write := Writes(handle, bytes[..start]), Sent(Write(handle, start, bytes[start..]), true);
      Associative(past, early, [write]);
      WritesNameNoPath(past, handle, bytes[..start], past + early + [write], write);
    }
  }

  /**
    The requests of an upload, in order. Scope: mutating requests name only the target and the
    temporary file. Durability: nothing is renamed that was not created, written in full,
    flushed and closed right before. Clean-up: once created, the temporary file is asked to
    be removed before any error.
   */
  ghost predicate Orderly(
      before: seq<Sent>, after: seq<Sent>, temporary: string, target: string, permissions: nat, bytes: Bytes,
      files: Files, error: Option<Reason>)
  {
    && UploadRequests(before, after, temporary, target)
    && (exists handle :: RenamedAfter(before, after, Storing(temporary, permissions, handle, bytes)))
    && (error.Some? ==> Withdrawn(before, after, temporary, files, error.value))
  }

  lemma OrderlyLater(
      past: seq<Sent>, middle: seq<Sent>, now: seq<Sent>, temporary: string, target: string, permissions: nat, bytes: Bytes,
      files: Files, error: Option<Reason>)
    requires NoMutation(past, middle) && Orderly(middle, now, temporary, target, permissions, bytes, files, error)
    ensures Orderly(past, now, temporary, target, permissions, bytes, files, error)
    ensures RenameInDoubt(past, now) ==> RenameInDoubt(middle, now)
    ensures Creates(past, now) ==> Creates(middle, now)
  {
    RequestsJoin(past, middle, now, temporary, target);
    var handle :| RenamedAfter(middle, now, Storing(temporary, permissions, handle, bytes));
    RenamedAfterJoins(past, middle, now, Storing(temporary, permissions, handle, bytes));
    if error.Some? {
      WithdrawnLater(past, middle, now, temporary, files, error.value);
    }
    if RenameInDoubt(past, now) {
      DoubtLater(past, middle, now);
    }
    assert forall i :: |past| <= i < |middle| ==> now[i] == middle[i];
  }

  lemma OrderlyNothing(
      past: seq<Sent>, now: seq<Sent>, temporary: string, target: string, permissions: nat, bytes: Bytes, files: Files, error: Option<Reason>)
    requires NoMutation(past, now)
    ensures Orderly(past, now, temporary, target, permissions, bytes, files, error)
    ensures !Creates(past, now) && !RenameInDoubt(past, now)
  {
    NothingRenamed(past, now, temporary, permissions, bytes);
  }

  // Nothing was renamed, so nothing was renamed too early.
  lemma NothingRenamed(before: seq<Sent>, after: seq<Sent>, temporary: string, permissions: nat, bytes: Bytes)
    requires NoMutation(before, after)
    ensures exists handle :: RenamedAfter(before, after, Storing(temporary, permissions, handle, bytes))
    ensures !Creates(before, after) && !RenameInDoubt(before, after)
  {
    assert RenamedAfter(before, after, Storing(temporary, permissions, [], bytes));
  }

  lemma AgreeJoin(before: Files, settled: Files, after: Files, target: string, temporary: string)
    requires AgreeExcept(before, settled, {target, temporary}) && AgreeExcept(settled, after, {temporary})
    ensures AgreeExcept(before, after, {target, temporary})
  {
  }

  function Rest(content: Bytes, n: nat): Bytes
  {
    if n <= |content| then content[n..] else []
  }

  lemma OverwriteFront(content: Bytes, data: Bytes)
    ensures Overwrite(content, 0, data) == data + Rest(content, |data|)
  {
    assert content[..0] + data == data;
  }

  lemma OverwriteAfter(front: Bytes, tail: Bytes, data: Bytes)
    ensures Overwrite(front + tail, |front|, data) == front + data + Rest(tail, |data|)
  {
    assert (front + tail)[..|front|] == front;
    if |data| <= |tail| {
      assert (front + tail)[|front| + |data|..] == tail[|data|..];
    }
  }

  lemma RestTwice(content: Bytes, m: nat, n: nat)
    ensures Rest(Rest(content, m), n) == Rest(content, m + n)
  {
  }

  // Writing one chunk after another is writing both at once.
  lemma OverwriteTwice(content: Bytes, first: Bytes, second: Bytes)
    ensures Overwrite(Overwrite(content, 0, first), |first|, second) == Overwrite(content, 0, first + second)
  {
    OverwriteFront(content, first);
    OverwriteAfter(first, Rest(content, |first|), second);
    RestTwice(content, |first|, |second|);
    OverwriteFront(content, first + second);
  }

  // Writing chunk after chunk from the front amounts to one write.
  lemma OverwriteInChunks(content: Bytes, bytes: Bytes, i: nat, j: nat)
    requires i <= j <= |bytes|
    ensures Overwrite(Overwrite(content, 0, bytes[..i]), i, bytes[i..j]) == Overwrite(content, 0, bytes[..j])
  {
    OverwriteTwice(content, bytes[..i], bytes[i..j]);
    assert bytes[..i] + bytes[i..j] == bytes[..j];
  }

  lemma InspectedPermissions(canonical: string -> string, home: string, files: Files, path: string)
    requires Inspect(canonical, home, files, path).Ok?
    ensures var permissions := Inspect(canonical, home, files, path).value.precondition.permissions;
            permissions % 0x200 == permissions
  {
  }

  lemma InspectedTarget(canonical: string -> string, home: string, files: Files, path: string)
    requires Inspect(canonical, home, files, path).Ok?
    ensures var found := Inspect(canonical, home, files, path).value;
            InspectTarget(Lookup(files, found.target)) == Ok(found.precondition)
  {
  }

  // An inspection of the same path later: only the target entry matters.
  lemma InspectAgain(canonical: string -> string, home: string, files: Files, later: Files, path: string, temporary: string)
    requires Inspect(canonical, home, files, path).Ok?
    requires var found := Inspect(canonical, home, files, path).value;
             AgreeExcept(files, later, {temporary, found.target}) && temporary != found.parent && found.parent != found.target
    ensures var found := Inspect(canonical, home, files, path).value;
            Inspect(canonical, home, later, path) ==
            match InspectTarget(Lookup(later, found.target))
            case Ok(precondition) => Ok(Inspection(precondition, found.parent, found.target))
            case Err(reason) => Err(reason)
  {
    var found := Inspect(canonical, home, files, path).value;
    assert Lookup(files, found.parent) == Lookup(later, found.parent);
  }

  class Client {
    const server: Server
    const home: string
    const supportsFsync: bool
    const supportsPosixRename: bool
    var nextRequestId: nat

    // Requests of this client that got no positive answer.
    ghost var faults: nat
    // Why they failed, in order.
    ghost var complaints: seq<Reason>
    // Handles that were handed out, less the closes that were asked for.
    ghost var handles: int

    ghost predicate Valid()
      reads this, server
    {
      server.lastId < nextRequestId <= U32_MAX && server.Recorded()
    }

    constructor (server: Server, home: string, supportsFsync: bool, supportsPosixRename: bool)
      requires server.lastId == 0 && server.Recorded()
      ensures Valid() && this.server == server && this.home == home && faults == 0 && handles == 0 && complaints == []
      ensures this.supportsFsync == supportsFsync && this.supportsPosixRename == supportsPosixRename
    {
      this.server, this.home := server, home;
      this.supportsFsync, this.supportsPosixRename := supportsFsync, supportsPosixRename;
      nextRequestId, faults, handles, complaints := 1, 0, 0, [];
    }

    predicate SupportsAtomicUpload() { supportsFsync && supportsPosixRename }

    // No file changed, at no moment, and no request asked for a change.
    twostate predicate ReadOnly()
      reads this, server
    {
      && server.fs.files == old(server.fs.files)
      && Confined(old(server.history), server.history, server.fs.files, {})
      && NoMutation(old(server.requests), server.requests)
      && old(faults) <= faults
    }

    // Request ids only grow, and until they run out so many handles more are open.
    twostate predicate Holds(more: int)
      reads this
    {
      && old(nextRequestId) <= nextRequestId && old(complaints) <= complaints
      && (nextRequestId < U32_MAX ==> handles == old(handles) + more)
    }

    // The first complaint since is the given one.
    twostate predicate Complains(reason: Reason)
      reads this
    {
      |old(complaints)| < |complaints| && complaints[|old(complaints)|] == reason
    }

    // The request was sent, unless the ids have run out.
    twostate predicate Asked(request: Request, answered: bool)
      reads this, server
    {
      || server.requests == old(server.requests) + [Sent(request, answered)]
      || (!answered && nextRequestId == U32_MAX && server.requests == old(server.requests))
    }

    // Sends one request under a fresh id and accepts only the packet with that id.
    method Request(request: Request) returns (r: Result<Reply, Reason>)
      requires Valid()
      modifies this, server
      ensures Valid()
      ensures Exchanged(server.canonical, server.exactModes, server.faithful, old(server.fs), request,
                        if r.Ok? then Some(r.value) else None, server.fs)
      ensures complaints == old(complaints) + if r.Ok? && Answers(request, r.value) then [] else [Complaint(request, r)]
      ensures faults == old(faults) + if r.Ok? && Answers(request, r.value) then 0 else 1
      ensures Asked(request, r.Ok? && Answers(request, r.value))
      ensures Holds(HandleChange(request, r.Ok? && Answers(request, r.value)))
      ensures (server.fs == old(server.fs) && server.history == old(server.history)) || server.history == old(server.history) + [server.fs.files]
      ensures r.Err? ==> OnTheWire(r.error) && r.error != NotFound
    {
      if nextRequestId == U32_MAX {
        faults, complaints := faults + 1, complaints + [RequestIdExhausted];
        return Err(RequestIdExhausted);
      }
      var id := nextRequestId;
      nextRequestId := nextRequestId + 1;
      var delivery := server.Exchange(id, request);
      match delivery {
        case Lost(cause) => r := Err(Transport(cause));
        case Packet(packetId, reply) => r := if packetId != id then Err(ProtocolError) else Ok(reply);
      }
      faults := faults + if r.Ok? && Answers(request, r.value) then 0 else 1;
      complaints := complaints + if r.Ok? && Answers(request, r.value) then [] else [Complaint(request, r)];
      handles := handles + HandleChange(request, r.Ok? && Answers(request, r.value));
    }

    static function HandleChange(request: Request, answered: bool): int
    {
      if request.Close? then -1 else if answered && (request.OpenRead? || request.OpenWriteExclusive?) then 1 else 0
    }

    method RealpathRaw(path: string) returns (r: Result<string, Reason>)
      requires Valid()
      modifies this, server
      ensures Valid() && ReadOnly() && Holds(0)
      ensures r.Ok? ==> r.value == server.canonical(path) && !IsLink(server.fs.files, r.value)
      ensures r.Err? ==> faults > old(faults)
    {
      var reply :- Request(Realpath(path));
      if reply.Status? {
        return Err(StatusError(reply.code));
      }
      if !reply.Name? || |reply.names| != 1 {
        return Err(ProtocolError);
      }
      r := Ok(reply.names[0]);
    }

    method StatRaw(path: string) returns (r: Result<Attrs, Reason>)
      requires Valid()
      modifies this, server
      ensures Valid() && ReadOnly() && Holds(0)
      ensures r.Ok? && r.value.permissions.Some? ==>
                path in server.fs.files
                && (server.fs.files[path].Kind() != SymbolicLink ==> Describes(r.value, server.fs.files[path]))
      ensures r.Err? || r.value.permissions.None? ==> faults > old(faults)
    {
      var reply :- Request(Stat(path));
      match reply
      case Attributes(attrs) => r := Ok(attrs);
      case Status(code) => r := Err(StatusError(code));
      case _ => r := Err(ProtocolError);
    }

    method LstatRaw(path: string) returns (r: Result<Attrs, Reason>)
      requires Valid()
      modifies this, server
      ensures Valid() && ReadOnly() && Holds(0)
      ensures r.Ok? && r.value.permissions.Some? ==>
                path in server.fs.files && Describes(r.value, server.fs.files[path])
      ensures r == Err(NotFound) ==> path !in server.fs.files
      ensures (r.Err? && r.error != NotFound) || (r.Ok? && r.value.permissions.None?) ==> faults > old(faults)
    {
      var reply :- Request(Lstat(path));
      match reply
      case Attributes(attrs) => r := Ok(attrs);
      case Status(code) => r := Err(StatusError(code));
      case _ => r := Err(ProtocolError);
    }

    method OpenForRead(path: string) returns (r: Result<Bytes, Reason>)
      requires Valid()
      modifies this, server
      ensures Valid() && ReadOnly() && Holds(if r.Ok? then 1 else 0)
      ensures r.Ok? ==>
                path in server.fs.files && r.value in server.fs.open
                && (server.fs.files[path].Kind() != SymbolicLink ==> server.fs.open[r.value] == path)
      ensures r.Err? ==> faults > old(faults)
    {
      var reply :- Request(OpenRead(path));
      r := HandleOf(reply);
    }

    method OpenTemporary(path: string, permissions: nat) returns (r: Result<Bytes, Reason>)
      requires Valid()
      modifies this, server
      ensures Valid() && Holds(if r.Ok? then 1 else 0)
      ensures r.Ok? ==>
                Created(server.exactModes, old(server.fs), path, permissions, server.fs)
                && server.fs.open == old(server.fs.open)[r.value := path]
      ensures r.Err? ==> Unanswered(server.faithful, old(server.fs), OpenWriteExclusive(path, permissions % 0x200), server.fs)
      ensures faults == old(faults) + if r.Ok? then 0 else 1
      ensures r.Err? ==> OnTheWire(r.error)
      ensures Confined(old(server.history), server.history, old(server.fs.files), {path})
      ensures Asked(OpenWriteExclusive(path, permissions % 0x200), r.Ok?)
      ensures complaints == old(complaints) + if r.Err? then [r.error] else []
    {
      var reply :- Request(OpenWriteExclusive(path, permissions % 0x200));
      r := HandleOf(reply);
    }

    // The data loop: it ends against any server, because each round gains at least one
    // byte below the limit.
    method ReadHandle(handle: Bytes, limit: nat, tooLarge: Reason) returns (r: Result<Bytes, Reason>)
      requires Valid() && limit < U64_LIMIT
      modifies this, server
      ensures Valid() && ReadOnly() && server.fs == old(server.fs) && Holds(0)
      ensures r.Ok? ==>
                handle in server.fs.open && server.fs.open[handle] in server.fs.files
                && r.value == server.fs.files[server.fs.open[handle]].content && |r.value| <= limit
      ensures r.Err? && faults == old(faults) ==>
                handle in server.fs.open && server.fs.open[handle] in server.fs.files
                && var size := |server.fs.files[server.fs.open[handle]].content|;
                   size > limit && (r.error == tooLarge || (r.error == SizeOverflow && limit + CHUNK_BYTES >= U64_LIMIT))
    {
      var bytes: Bytes := [];
      var offset := 0;
      while true
        invariant Valid() && ReadOnly() && server.fs == old(server.fs) && Holds(0)
        invariant offset == |bytes| <= limit
        invariant offset > 0 ==>
                    handle in server.fs.open && server.fs.open[handle] in server.fs.files
                    && bytes <= server.fs.files[server.fs.open[handle]].content
        decreases limit - offset
      {
        var chunk :- ReadChunk(handle, offset);
        if chunk.None? {
          return Ok(bytes);
        }
        if offset + |chunk.value| >= U64_LIMIT {
          return Err(SizeOverflow);
        }
        if offset + |chunk.value| > limit {
          return Err(tooLarge);
        }
        bytes := bytes + chunk.value;
        offset := offset + |chunk.value|;
      }
    }

    // One round of the loop: the next bytes, at least one, or the end of the file.
    method ReadChunk(handle: Bytes, offset: nat) returns (r: Result<Option<Bytes>, Reason>)
      requires Valid()
      modifies this, server
      ensures Valid() && ReadOnly() && server.fs == old(server.fs) && Holds(0)
      ensures r.Err? ==> faults > old(faults)
      ensures r.Ok? ==>
                && handle in server.fs.open && server.fs.open[handle] in server.fs.files
                && var content := server.fs.files[server.fs.open[handle]].content;
                   if r.value.None? then |content| <= offset
                   else 0 < |r.value.value| <= CHUNK_BYTES && offset + |r.value.value| <= |content|
                        && r.value.value == content[offset..offset + |r.value.value|]
    {
      var reply :- Request(Read(handle, offset, CHUNK_BYTES));
      match reply
      case Data(data) =>
        if data == [] {
          return Err(ProtocolError);
        }
        r := Ok(Some(data));
      case Status(code) =>
        r := if code == FX_EOF then Ok(None) else Err(StatusError(code));
      case _ =>
        r := Err(ProtocolError);
    }

    // Chunks of 32 KiB at increasing offsets; only the file behind the handle changes.
    method WriteHandle(handle: Bytes, bytes: Bytes) returns (r: Result<(), Reason>)
      requires Valid()
      requires handle in server.fs.open && server.fs.open[handle] in server.fs.files
      modifies this, server
      ensures Valid() && Holds(0)
      ensures server.fs.open == old(server.fs.open)
      ensures var path := old(server.fs.open[handle]);
              && path in server.fs.files
              && server.fs.files == old(server.fs.files)[path := old(server.fs.files[server.fs.open[handle]]).(content := server.fs.files[path].content)]
              && (r.Ok? ==> server.fs.files[path].content == Overwrite(old(server.fs.files[server.fs.open[handle]].content), 0, bytes))
              && Confined(old(server.history), server.history, old(server.fs.files), {path})
      ensures NoMutation(old(server.requests), server.requests)
      ensures r.Ok? ==> server.requests == old(server.requests) + Writes(handle, bytes)
      ensures old(faults) <= faults && (r.Err? <==> faults > old(faults)) && (r.Err? ==> OnTheWire(r.error))
      ensures complaints == old(complaints) + if r.Err? then [r.error] else []
    {
      ghost var path := server.fs.open[handle];
      ghost var content := server.fs.files[path].content;
      var offset := 0;
      while offset < |bytes|
        invariant Valid() && faults == old(faults) && complaints == old(complaints) && Holds(0)
        invariant 0 <= offset <= |bytes| && ChunkStart(offset, |bytes|)
        invariant server.requests == old(server.requests) + Writes(handle, bytes[..offset])
        invariant server.fs.open == old(server.fs.open)
        invariant path in server.fs.files
        invariant server.fs.files[path].content == Overwrite(content, 0, bytes[..offset])
        invariant server.fs.files == old(server.fs.files)[path := old(server.fs.files[path]).(content := server.fs.files[path].content)]
        invariant Confined(old(server.history), server.history, old(server.fs.files), {path})
      {
        var end := ChunkEnd(offset, |bytes|);
        OverwriteInChunks(content, bytes, offset, end);
        NextWrite(old(server.requests), handle, bytes, offset, end);
        ghost var files, past := server.fs.files, server.history;
        r := WriteChunk(handle, offset, bytes[offset..end]);
        ConfinedJoins(old(server.history), past, server.history, old(server.fs.files), files, path);
        WritesNameNoPath(old(server.requests), handle, bytes[..offset], server.requests, Sent(Write(handle, offset, bytes[offset..end]), r.Ok?));
        if r.Err? {
          return;
        }
        offset := end;
      }
      assert bytes[..offset] == bytes;
      WritesNameNoPath(old(server.requests), handle, bytes, server.requests, Sent(Write(handle, 0, []), true));
      r := Ok(());
    }

    method WriteChunk(handle: Bytes, offset: nat, data: Bytes) returns (r: Result<(), Reason>)
      requires Valid()
      requires handle in server.fs.open && server.fs.open[handle] in server.fs.files
      modifies this, server
      ensures Valid() && Holds(0)
      ensures server.fs.open == old(server.fs.open)
      ensures var path := old(server.fs.open[handle]);
              && path in server.fs.files
              && server.fs.files == old(server.fs.files)[path := old(server.fs.files[server.fs.open[handle]]).(content := server.fs.files[path].content)]
              && (r.Ok? ==> server.fs.files[path].content == Overwrite(old(server.fs.files[server.fs.open[handle]].content), offset, data))
              && Confined(old(server.history), server.history, old(server.fs.files), {path})
      ensures Asked(Write(handle, offset, data), r.Ok?)
      ensures old(faults) <= faults && (r.Err? <==> faults > old(faults)) && (r.Err? ==> OnTheWire(r.error))
      ensures complaints == old(complaints) + if r.Err? then [r.error] else []
    {
      var reply :- Request(Write(handle, offset, data));
      r := RequireOk(reply, Reason.WriteFailed);
    }

    method FsyncHandle(handle: Bytes) returns (r: Result<(), Reason>)
      requires Valid()
      modifies this, server
      ensures Valid() && ReadOnly() && server.fs == old(server.fs) && Holds(0) && Asked(Fsync(handle), r.Ok?)
      ensures (r.Err? <==> faults > old(faults)) && (r.Err? ==> OnTheWire(r.error))
      ensures complaints == old(complaints) + if r.Err? then [r.error] else []
    {
      var reply :- Request(Fsync(handle));
      r := RequireOk(reply, FsyncFailed);
    }

    method CloseHandle(handle: Bytes) returns (r: Result<(), Reason>)
      requires Valid()
      modifies this, server
      ensures Valid() && ReadOnly() && Holds(-1) && Asked(Close(handle), r.Ok?)
      ensures (r.Err? <==> faults > old(faults)) && (r.Err? ==> OnTheWire(r.error))
      ensures complaints == old(complaints) + if r.Err? then [r.error] else []
    {
      var reply :- Request(Close(handle));
      r := if reply == Status(FX_OK) then Ok(()) else Err(CloseFailed);
    }

    method Rename(source: string, target: string) returns (r: Result<(), Reason>)
      requires Valid()
      modifies this, server
      ensures Valid() && Holds(0) && Asked(PosixRename(source, target), r.Ok?)
      ensures if r.Ok? then Renamed(old(server.fs), source, target, server.fs)
              else Unanswered(server.faithful, old(server.fs), PosixRename(source, target), server.fs)
      ensures old(faults) <= faults && faults == old(faults) + (if r.Err? then 1 else 0) && (r.Err? ==> OnTheWire(r.error))
      ensures old(server.history) <= server.history <= old(server.history) + [server.fs.files]
      ensures complaints == old(complaints) + if r.Err? then [r.error] else []
    {
      var reply :- Request(PosixRename(source, target));
      r := RequireOk(reply, RenameFailed);
    }

    method RemoveIfPresent(path: string) returns (r: Result<(), Reason>)
      requires Valid()
      modifies this, server
      ensures Valid() && Holds(0) && Asked(Remove(path), r.Ok?)
      ensures r.Ok? ==> server.fs.files == old(server.fs.files) - {path}
      ensures r.Err? ==> server.fs.files == old(server.fs.files) || server.fs.files == old(server.fs.files) - {path}
      ensures old(faults) <= faults && (r.Err? <==> faults > old(faults)) && (r.Err? ==> OnTheWire(r.error))
      ensures Confined(old(server.history), server.history, old(server.fs.files), {path})
    {
      var reply :- Request(Remove(path));
      if !reply.Status? {
        return Err(ProtocolError);
      }
      if reply.code == FX_OK || reply.code == FX_NO_SUCH_FILE {
        assert path !in old(server.fs.files) ==> old(server.fs.files) - {path} == old(server.fs.files);
        return Ok(());
      }
      r := Err(StatusError(reply.code));
    }

    method CleanupTemporary(path: string, reason: Reason) returns (error: Reason, ghost removed: bool)
      requires Valid()
      modifies this, server
      ensures Valid() && Holds(0) && Asked(Remove(path), removed)
      ensures error == if removed then reason else TemporaryCleanupFailed
      ensures removed ==> server.fs.files == old(server.fs.files) - {path}
      ensures AgreeExcept(old(server.fs.files), server.fs.files, {path})
      ensures Confined(old(server.history), server.history, old(server.fs.files), {path})
      ensures old(faults) <= faults && (removed <==> faults == old(faults))
    {
      var result := RemoveIfPresent(path);
      removed := result.Ok?;
      error := if result.Err? then TemporaryCleanupFailed else reason;
    }

    method Resolve(path: string) returns (r: Result<string, Reason>)
      requires Valid()
      modifies this, server
      ensures Valid() && ReadOnly() && Holds(0)
      ensures r.Ok? ==> ValidFilePath(path) && r.value == server.canonical(Candidate(home, path)) && InHome(home, r.value)
                        && !IsLink(server.fs.files, r.value)
      ensures r.Err? && faults == old(faults) ==>
                if !ValidFilePath(path) then r.error == PathInvalid
                else r.error == PathOutsideHome && !InHome(home, server.canonical(Candidate(home, path)))
    {
      if !ValidFilePath(path) {
        return Err(PathInvalid);
      }
      var canonical :- RealpathRaw(if path == "" then home else home + "/" + path);
      if canonical != home && !(home <= canonical && "/" <= canonical[|home|..]) {
        return Err(PathOutsideHome);
      }
      r := Ok(canonical);
    }

    method ReadCanonicalFile(path: string, limit: nat, tooLarge: Reason) returns (r: Result<Bytes, Reason>)
      requires Valid() && limit + CHUNK_BYTES < U64_LIMIT
      modifies this, server
      ensures Valid() && ReadOnly() && Holds(0)
      ensures r.Ok? || faults == old(faults) ==>
                path in server.fs.files
                && (server.fs.files[path].Kind() != SymbolicLink ==> r == ReadOutcome(server.fs.files[path], limit, tooLarge))
    {
      var attrs :- StatRaw(path);
      if KindOf(attrs) != Regular {
        return Err(NotRegularFile);
      }
      if attrs.size.Some? && attrs.size.value > limit {
        return Err(tooLarge);
      }
      r := ReadWhole(path, limit, tooLarge);
    }

    // Opens the file, reads it and closes it, whatever the reading led to.
    method ReadWhole(path: string, limit: nat, tooLarge: Reason) returns (r: Result<Bytes, Reason>)
      requires Valid() && limit + CHUNK_BYTES < U64_LIMIT
      modifies this, server
      ensures Valid() && ReadOnly() && Holds(0)
      ensures r.Ok? || faults == old(faults) ==>
                path in server.fs.files
                && (server.fs.files[path].Kind() != SymbolicLink ==>
                      r == if |server.fs.files[path].content| > limit then Err(tooLarge) else Ok(server.fs.files[path].content))
    {
      var handle :- OpenForRead(path);
      r := ReadHandle(handle, limit, tooLarge);
      var _ := CloseHandle(handle);
    }

    method InspectUpload(path: string) returns (r: Result<Inspection, Reason>)
      requires Valid()
      modifies this, server
      ensures Valid() && ReadOnly() && Holds(0)
      ensures r.Ok? || faults == old(faults) ==> r == Inspect(server.canonical, home, server.fs.files, path)
    {
      if !ValidFilePath(path) {
        return Err(PathInvalid);
      }
      if path == "" {
        return Err(UploadPathInvalid);
      }
      var (parent, name) := ParentAndName(path);
      if !ValidEntryName(name) {
        return Err(UnsafeName);
      }
      if Reserved(name) {
        return Err(UploadPathInvalid);
      }
      var directory :- Resolve(parent);
      var attrs :- StatRaw(directory);
      if KindOf(attrs) != Directory {
        return Err(NotDirectory);
      }
      var target := directory + "/" + name;
      var precondition :- InspectEntry(target);
      r := Ok(Inspection(precondition, directory, target));
    }

    method InspectEntry(target: string) returns (r: Result<Precondition, Reason>)
      requires Valid()
      modifies this, server
      ensures Valid() && ReadOnly() && Holds(0)
      ensures r.Ok? || faults == old(faults) ==> r == InspectTarget(Lookup(server.fs.files, target))
    {
      var entry := LstatRaw(target);
      if entry == Err(NotFound) {
        return Ok(Precondition(Create, None, 0, 0x180));
      }
      var found :- entry;
      if KindOf(found) == SymbolicLink {
        return Err(TargetSymlinkDenied);
      }
      if KindOf(found) != Regular {
        return Err(TargetTypeUnsupported);
      }
      var permissions := found.permissions.value % 0x200;
      var bytes :- ReadCanonicalFile(target, MAX_UPLOAD_BYTES, UploadTargetTooLarge);
      r := Ok(Precondition(Replace, Some(Sha256(bytes)), |bytes|, permissions));
    }

    // The error of the result, while there are request ids left.
    function Last(r: Result<Precondition, Reason>): Option<Reason>
      reads this
    {
      if r.Err? && nextRequestId < U32_MAX then Some(r.error) else None
    }

    /**
      The atomic upload protocol, whole.

      Whatever requests the server refuses or loses, and even if the rename takes effect
      while reporting an error: at every moment the target is the old entry or the complete
      new content, no other path but the temporary one ever changes, and the result tells
      the truth about the target. If nothing goes wrong the admission checks alone decide
      the result.
     */
    method AtomicUpload(path: string, expected: Precondition, bytes: Bytes, suffix: string)
      returns (r: Result<Precondition, Reason>)
      requires Valid()
      modifies this, server
      ensures Valid() && old(faults) <= faults && Holds(0)
      ensures var admitted := Admit(SupportsAtomicUpload(), server.canonical, home, old(server.fs.files), path, expected, bytes, suffix);
              var before := old(server.fs.files);
              var after := server.fs.files;
              if admitted.Err? then
                // Refused uploads send no mutating request at all.
                && r.Err? && ReadOnly()
                && (faults == old(faults) ==> r.error == admitted.error)
              else
                var target := admitted.value.target;
                var temporary := TemporaryPath(admitted.value.parent, suffix);
                // The result is the truth about the target, and nothing else changed.
                && ResultIsTruth(Lookup(before, target), Lookup(after, target), bytes, expected.permissions, r)
                && AgreeExcept(before, after, {target, temporary})
                // Crash atomicity: the same holds after every single request.
                && Atomic(old(server.history), server.history, before, target, temporary, bytes)
                // A file that was already there under the temporary name is left alone.
                && (temporary in before ==> after == before)
                // The temporary file is gone, except where the protocol says otherwise.
                && (server.faithful && temporary !in before && temporary in after ==> MayLeaveTemporary(r, before, after, target))
                // Scope, durability and clean-up of the requests.
                && Orderly(old(server.requests), server.requests, temporary, target, expected.permissions, bytes, after, Last(r))
                // A new file is private, a replaced one keeps its permissions.
                && (r.Ok? ==> ModeKept(Lookup(before, target), Lookup(after, target)))
                // The error is what a request was refused with, or a verdict.
                && (r.Err? && OnTheWire(r.error) && Creates(old(server.requests), server.requests) ==> r.error in complaints[|old(complaints)|..])
                // A rename that is the only fault is seen through: it happened, or it did not.
                && (faults == old(faults) + 1 && (server.faithful || server.exactModes) && RenameInDoubt(old(server.requests), server.requests) ==>
                      r.Ok? || (OnTheWire(r.error) && temporary !in after))
                // Progress: without faults the upload succeeds.
                && (faults == old(faults) && server.exactModes ==> r.Ok?)
    {
      var admitted := CheckAdmission(path, expected, bytes, suffix);
      OrderlyNothing(old(server.requests), server.requests, TemporaryPath(CanonicalParent(server.canonical, home, path), suffix),
                     TargetPath(server.canonical, home, path), expected.permissions, bytes, server.fs.files,
                     Last(if admitted.Err? then Err(admitted.error) else Err(TargetChanged)));
      var current :- admitted;
      AdmittedAsExpected(true, server.canonical, home, server.fs.files, path, expected, bytes, suffix);
      var temporary := TemporaryPath(current.parent, suffix);
      TemporaryIsFresh(current.parent, ParentAndName(path).1, suffix);
      ghost var middle, asked, told := server.history, server.requests, complaints;
      r := Execute(path, current, temporary, bytes);
      OrderlyLater(old(server.requests), asked, server.requests, temporary, current.target, expected.permissions, bytes, server.fs.files, Last(r));
      if r.Err? && OnTheWire(r.error) {
        assert complaints[|old(complaints)|..][|told| - |old(complaints)|] == r.error;
      }
      AtomicConfined(old(server.history), middle, old(server.fs.files), current.target, temporary, bytes);
      AtomicJoins(old(server.history), middle, server.history, old(server.fs.files), current.target, temporary, bytes);
    }

    // The checks before the first change.
    method CheckAdmission(path: string, expected: Precondition, bytes: Bytes, suffix: string) returns (r: Result<Inspection, Reason>)
      requires Valid()
      modifies this, server
      ensures Valid() && ReadOnly() && Holds(0)
      ensures r.Ok? || faults == old(faults) ==>
                r == Admit(SupportsAtomicUpload(), server.canonical, home, old(server.fs.files), path, expected, bytes, suffix)
    {
      if !SupportsAtomicUpload() {
        return Err(WriteExtensionUnavailable);
      }
      if |bytes| > MAX_UPLOAD_BYTES {
        return Err(UploadTooLarge);
      }
      if !ValidSuffix(suffix) {
        return Err(TemporarySuffixInvalid);
      }
      var current :- InspectUpload(path);
      if current.precondition != expected {
        return Err(TargetChanged);
      }
      r := Ok(current);
    }

    method Execute(path: string, current: Inspection, temporary: string, bytes: Bytes) returns (r: Result<Precondition, Reason>)
      requires Valid() && |bytes| <= MAX_UPLOAD_BYTES
      requires Inspect(server.canonical, home, server.fs.files, path) == Ok(current)
      requires temporary != current.target && temporary != current.parent && current.target != current.parent
      modifies this, server
      ensures Valid() && old(faults) <= faults && Holds(0)
      ensures ResultIsTruth(old(Lookup(server.fs.files, current.target)), Lookup(server.fs.files, current.target), bytes, current.precondition.permissions, r)
      ensures AgreeExcept(old(server.fs.files), server.fs.files, {current.target, temporary})
      ensures Atomic(old(server.history), server.history, old(server.fs.files), current.target, temporary, bytes)
      ensures temporary in old(server.fs.files) ==> server.fs.files == old(server.fs.files)
      ensures server.faithful && temporary !in old(server.fs.files) && temporary in server.fs.files ==>
                MayLeaveTemporary(r, old(server.fs.files), server.fs.files, current.target)
      ensures Orderly(old(server.requests), server.requests, temporary, current.target, current.precondition.permissions, bytes, server.fs.files, Last(r))
      ensures RenameInDoubt(old(server.requests), server.requests) ==> faults > old(faults)
      ensures r.Err? && OnTheWire(r.error) ==> Complains(r.error)
      ensures (server.faithful || server.exactModes) && faults == old(faults) + 1 && RenameInDoubt(old(server.requests), server.requests) ==>
                r.Ok? || (OnTheWire(r.error) && temporary !in server.fs.files)
      ensures faults == old(faults) && server.exactModes ==> r.Ok?
    {
      ghost var before := server.fs.files;
      InspectedPermissions(server.canonical, home, before, path);
      var stored, handle := StoreTemporary(temporary, current.precondition.permissions, bytes, current.target);
      ghost var middle, asked := server.history, server.requests;
      AtomicConfined(old(server.history), middle, before, current.target, temporary, bytes);
      if stored.Err? {
        assert RenamedAfter(old(server.requests), server.requests, Storing(temporary, current.precondition.permissions, handle, bytes));
        return Err(stored.error);
      }
      ghost var trace := Storing(temporary, current.precondition.permissions, handle, bytes);
      r := Publish(path, current, temporary, bytes, before, trace);
      if RenameInDoubt(old(server.requests), server.requests) {
        DoubtLater(old(server.requests), asked, server.requests);
      }
      RenamedAfterJoins(old(server.requests), asked, server.requests, trace);
      RequestsJoin(old(server.requests), asked, server.requests, temporary, current.target);
      AtomicJoins(old(server.history), middle, server.history, before, current.target, temporary, bytes);
    }

    // First half: create the temporary file exclusively, fill it, flush it, close it.
    method StoreTemporary(temporary: string, permissions: nat, bytes: Bytes, ghost target: string) returns (r: Result<(), Reason>, ghost handle: Bytes)
      requires Valid()
      modifies this, server
      ensures Valid() && old(faults) <= faults && Holds(0)
      ensures r.Ok? ==> IsStored(old(server.fs.files), server.fs.files, temporary, bytes)
                        && (server.exactModes ==> server.fs.files[temporary].Permissions() == permissions % 0x200)
      ensures r.Ok? ==> faults == old(faults) && complaints == old(complaints)
      ensures r.Err? ==> faults > old(faults) && (r.error == TemporaryCleanupFailed || (OnTheWire(r.error) && Complains(r.error)))
      ensures AgreeExcept(old(server.fs.files), server.fs.files, {temporary})
      ensures temporary in old(server.fs.files) ==> r.Err? && server.fs.files == old(server.fs.files)
      ensures r.Err? && server.faithful && temporary !in old(server.fs.files) && temporary in server.fs.files ==>
                r.error == TemporaryCleanupFailed
      ensures Confined(old(server.history), server.history, old(server.fs.files), {temporary})
      ensures UploadRequests(old(server.requests), server.requests, temporary, target)
      ensures NoRename(old(server.requests), server.requests)
      ensures r.Ok? ==> server.requests == old(server.requests) + Storing(temporary, permissions % 0x200, handle, bytes)
      ensures r.Err? && nextRequestId < U32_MAX ==> Withdrawn(old(server.requests), server.requests, temporary, server.fs.files, r.error)
    {
      handle := [];
      var file := OpenTemporary(temporary, permissions);
      if file.Err? {
        r := Err(file.error);
        return;
      }
      handle := file.value;
      ghost var asked, open, files, past := server.requests, Sent(OpenWriteExclusive(temporary, permissions % 0x200), true), server.fs.files, server.history;
      ghost var filled;
      r, filled := FillOrRemove(file.value, temporary, bytes);
      Associative(old(server.requests), [open], Flushed(handle, bytes));
      StoreRequests(old(server.requests), asked, filled, server.requests, temporary, permissions % 0x200, target);
      ConfinedJoins(old(server.history), past, server.history, old(server.fs.files), files, temporary);
      OverwriteFront([], bytes);
    }

    // Fills the new file, and removes it again if that fails.
    method FillOrRemove(handle: Bytes, temporary: string, bytes: Bytes) returns (r: Result<(), Reason>, ghost filled: seq<Sent>)
      requires Valid() && handle in server.fs.open && server.fs.open[handle] == temporary && temporary in server.fs.files
      modifies this, server
      ensures Valid() && old(faults) <= faults && Holds(-1)
      ensures r.Ok? ==> server.fs.files == old(server.fs.files)[temporary := old(server.fs.files[temporary]).(
                          content := Overwrite(old(server.fs.files[temporary].content), 0, bytes))]
      ensures AgreeExcept(old(server.fs.files), server.fs.files, {temporary})
      ensures r.Ok? ==> faults == old(faults) && complaints == old(complaints)
      ensures r.Err? ==> faults > old(faults)
                         && (r.error == TemporaryCleanupFailed || (OnTheWire(r.error) && Complains(r.error) && temporary !in server.fs.files))
      ensures Confined(old(server.history), server.history, old(server.fs.files), {temporary})
      ensures NoMutation(old(server.requests), filled)
      ensures r.Ok? ==> server.requests == filled == old(server.requests) + Flushed(handle, bytes)
      ensures r.Err? ==>
                || server.requests == filled + [Sent(Remove(temporary), r.error != TemporaryCleanupFailed)]
                || (server.requests == filled && nextRequestId == U32_MAX)
      ensures r.Err? && nextRequestId < U32_MAX ==> EndsRemoved(server.requests, temporary, server.fs.files, r.error)
    {
      r := Fill(handle, bytes);
      filled := server.requests;
      if r.Err? {
        ghost var files, past := server.fs.files, server.history;
        var error, removed := CleanupTemporary(temporary, r.error);
        ConfinedJoins(old(server.history), past, server.history, old(server.fs.files), files, temporary);
        r := Err(error);
      }
    }

    // Writes, syncs unless the write failed, and closes in any case; the first error counts.
    method Fill(handle: Bytes, bytes: Bytes) returns (r: Result<(), Reason>)
      requires Valid()
      requires handle in server.fs.open && server.fs.open[handle] in server.fs.files
      modifies this, server
      ensures Valid() && Holds(-1)
      ensures var path := old(server.fs.open[handle]);
              && path in server.fs.files
              && server.fs.files == old(server.fs.files)[path := old(server.fs.files[server.fs.open[handle]]).(content := server.fs.files[path].content)]
              && (r.Ok? ==> server.fs.files[path].content == Overwrite(old(server.fs.files[server.fs.open[handle]].content), 0, bytes))
              && Confined(old(server.history), server.history, old(server.fs.files), {path})
      ensures NoMutation(old(server.requests), server.requests)
      ensures r.Ok? ==> server.requests == old(server.requests) + Flushed(handle, bytes)
      ensures nextRequestId < U32_MAX ==> server.requests != [] && server.requests[|server.requests| - 1].request == Close(handle)
      ensures old(faults) <= faults && (r.Err? <==> faults > old(faults)) && (r.Err? ==> OnTheWire(r.error))
      ensures if r.Err? then Complains(r.error) else complaints == old(complaints)
    {
      var written := WriteHandle(handle, bytes);
      var synced := Ok(());
      if written.Ok? {
        synced := FsyncHandle(handle);
      }
      var closed := CloseHandle(handle);
      r := if written.Err? then written else if synced.Err? then synced else closed;
    }

    // Second half: rename over the target and read back what is there now.
    method RenameAndInspect(path: string, current: Inspection, temporary: string, bytes: Bytes, ghost before: Files, ghost trace: seq<Sent>)
      returns (renamed: Result<(), Reason>, after: Result<Inspection, Reason>)
      requires Valid()
      requires Inspect(server.canonical, home, before, path) == Ok(current)
      requires temporary != current.target && temporary != current.parent && current.target != current.parent
      requires IsStored(before, server.fs.files, temporary, bytes) && EndsWith(server.requests, trace)
      modifies this, server
      ensures Valid() && Holds(0) && old(faults) <= faults && (renamed.Err? ==> faults > old(faults) && Complains(renamed.error))
      ensures Settled(old(server.fs.files), server.fs.files, temporary, current.target, renamed.Ok?, server.faithful)
      ensures after.Ok? || faults == old(faults) + (if renamed.Ok? then 0 else 1) ==>
                after == WithTarget(InspectTarget(Lookup(server.fs.files, current.target)), current)
      ensures Atomic(old(server.history), server.history, before, current.target, temporary, bytes)
      ensures UploadRequests(old(server.requests), server.requests, temporary, current.target)
      ensures RenamedAfter(old(server.requests), server.requests, trace)
      ensures renamed.Err? ==> OnTheWire(renamed.error)
      ensures NoCreation(old(server.requests), server.requests)
      ensures RenameInDoubt(old(server.requests), server.requests) ==> renamed.Err?
    {
      ghost var ready := server.fs.files;
      renamed := Rename(temporary, current.target);
      RenameIsAtomic(before, ready, server.fs.files, temporary, current.target, bytes);
      InspectAgain(server.canonical, home, before, server.fs.files, path, temporary);
      ghost var settled, past, asked := server.fs.files, server.history, server.requests;
      after := InspectUpload(path);
      RenamedOnce(old(server.requests), asked, server.requests, Sent(PosixRename(temporary, current.target), renamed.Ok?), trace);
      RenameRequests(old(server.requests), asked, server.requests, temporary, current.target, renamed.Ok?);
      AtomicExtends(old(server.history), past, server.history, before, settled, current.target, temporary, bytes);
    }

    // The verdict: verified, refused and cleaned up, or left to a human.
    method Publish(path: string, current: Inspection, temporary: string, bytes: Bytes, ghost before: Files, ghost trace: seq<Sent>)
      returns (r: Result<Precondition, Reason>)
      requires Valid() && |bytes| <= MAX_UPLOAD_BYTES
      requires Inspect(server.canonical, home, before, path) == Ok(current)
      requires temporary != current.target && temporary != current.parent && current.target != current.parent
      requires IsStored(before, server.fs.files, temporary, bytes) && EndsWith(server.requests, trace)
      modifies this, server
      ensures Valid() && old(faults) <= faults && Holds(0)
      ensures ResultIsTruth(Lookup(before, current.target), Lookup(server.fs.files, current.target), bytes, current.precondition.permissions, r)
      ensures AgreeExcept(before, server.fs.files, {current.target, temporary})
      ensures Atomic(old(server.history), server.history, before, current.target, temporary, bytes)
      ensures server.faithful && temporary in server.fs.files ==> MayLeaveTemporary(r, before, server.fs.files, current.target)
      ensures UploadRequests(old(server.requests), server.requests, temporary, current.target)
      ensures RenamedAfter(old(server.requests), server.requests, trace)
      ensures r.Err? && nextRequestId < U32_MAX ==> EndsRemoved(server.requests, temporary, server.fs.files, r.error)
      ensures r.Err? && OnTheWire(r.error) ==> Complains(r.error)
      ensures RenameInDoubt(old(server.requests), server.requests) ==> faults > old(faults)
      ensures (server.faithful || old(server.fs.files[temporary].Permissions()) == current.precondition.permissions)
              && faults == old(faults) + 1 && RenameInDoubt(old(server.requests), server.requests) ==>
                r.Ok? || (OnTheWire(r.error) && temporary !in server.fs.files)
      ensures faults == old(faults) && old(server.fs.files[temporary].Permissions()) == current.precondition.permissions ==> r.Ok?
    {
      ghost var ready := server.fs.files;
      var renamed, after := RenameAndInspect(path, current, temporary, bytes, before, trace);
      ghost var past, asked := server.history, server.requests;
      InspectedTarget(server.canonical, home, before, path);
      Recognised(before, ready, server.fs.files, current, temporary, bytes, renamed, after);
      RenameIsAtomic(before, ready, server.fs.files, temporary, current.target, bytes);
      r := Conclude(renamed, after, current, temporary, bytes, before, ready);
      AtomicJoins(old(server.history), past, server.history, before, current.target, temporary, bytes);
      RenamedThenNone(old(server.requests), asked, server.requests, trace);
      RequestsJoin(old(server.requests), asked, server.requests, temporary, current.target);
      if RenameInDoubt(old(server.requests), server.requests) {
        DoubtBefore(old(server.requests), asked, server.requests);
      }
    }

    // Decides on what was reported and what was seen, and removes the temporary file unless
    // the new content was seen in place.
    method Conclude(renamed: Result<(), Reason>, after: Result<Inspection, Reason>, current: Inspection, temporary: string, bytes: Bytes,
                    ghost before: Files, ghost ready: Files)
      returns (r: Result<Precondition, Reason>)
      requires Valid() && temporary != current.target && (renamed.Err? ==> OnTheWire(renamed.error))
      requires IsStored(before, ready, temporary, bytes) && InspectTarget(Lookup(before, current.target)) == Ok(current.precondition)
      requires Settled(ready, server.fs.files, temporary, current.target, renamed.Ok?, server.faithful)
      requires after.Ok? ==> after == WithTarget(InspectTarget(Lookup(server.fs.files, current.target)), current)
      modifies this, server
      ensures Valid() && old(faults) <= faults && Holds(0)
      ensures ResultIsTruth(Lookup(before, current.target), Lookup(server.fs.files, current.target), bytes, current.precondition.permissions, r)
      ensures AgreeExcept(before, server.fs.files, {current.target, temporary})
      ensures Atomic(old(server.history), server.history, before, current.target, temporary, bytes)
      ensures server.faithful && temporary in server.fs.files ==> MayLeaveTemporary(r, before, server.fs.files, current.target)
      ensures UploadRequests(old(server.requests), server.requests, temporary, current.target) && NoRename(old(server.requests), server.requests)
      ensures r.Err? && nextRequestId < U32_MAX ==> EndsRemoved(server.requests, temporary, server.fs.files, r.error)
      ensures Seen(after, bytes, current.precondition.permissions) ==> r.Ok?
      ensures r.Err? && OnTheWire(r.error) ==> renamed == Err(r.error)
      ensures Refused(renamed, after, current) && faults == old(faults) ==> r.Ok? || (OnTheWire(r.error) && temporary !in server.fs.files)
    {
      RenameIsAtomic(before, ready, server.fs.files, temporary, current.target, bytes);
      if after.Ok? {
        ReadBack(before, ready, server.fs.files, current.target, temporary, bytes, current.precondition, after.value.precondition);
      }
      if after.Ok? && Matches(after.value.precondition, bytes, current.precondition.permissions) {
        return Ok(after.value.precondition);
      }
      var refused := renamed.Err? && after.Ok? && after.value.precondition == current.precondition;
      var error, _ := Withdraw(if refused then renamed.error else ManualRecoveryRequired, temporary, current.target, bytes, before);
      r := Err(error);
    }

    // Removes the temporary file after a rename that was refused, or whose outcome is in doubt.
    method Withdraw(reason: Reason, temporary: string, ghost target: string, ghost bytes: Bytes, ghost before: Files) returns (error: Reason, ghost removed: bool)
      requires Valid() && temporary != target && reason != TemporaryCleanupFailed
      requires AgreeExcept(before, server.fs.files, {target, temporary})
      requires OldOrNew(Lookup(before, target), Lookup(server.fs.files, target), bytes)
      modifies this, server
      ensures Valid() && old(faults) <= faults && Holds(0) && NoRename(old(server.requests), server.requests)
      ensures Asked(Remove(temporary), removed) && (removed <==> faults == old(faults)) && (removed ==> temporary !in server.fs.files)
      ensures error == if removed || reason == ManualRecoveryRequired then reason else TemporaryCleanupFailed
      ensures reason == ManualRecoveryRequired ==> error == reason
      ensures error == reason || error == TemporaryCleanupFailed
      ensures error == reason != ManualRecoveryRequired ==> temporary !in server.fs.files
      ensures AgreeExcept(before, server.fs.files, {target, temporary})
      ensures Lookup(server.fs.files, target) == Lookup(old(server.fs.files), target)
      ensures Atomic(old(server.history), server.history, before, target, temporary, bytes)
      ensures UploadRequests(old(server.requests), server.requests, temporary, target)
    {
      ghost var settled, past := server.fs.files, server.history;
      if reason == ManualRecoveryRequired {
        var result := RemoveIfPresent(temporary);
        error, removed := reason, result.Ok?;
      } else {
        error, removed := CleanupTemporary(temporary, reason);
      }
      AgreeJoin(before, settled, server.fs.files, target, temporary);
      AtomicExtends(past, past, server.history, before, settled, target, temporary, bytes);
    }
  }
}
