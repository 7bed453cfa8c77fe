/**
 The record kept for one stored file and the decision each request takes on it.
 Every request names one path; what it does to that path's record, and what it answers,
 depends on that record alone.
 */
module Files {
  import opened Basics

  /** `subs` is the waiter stack, most recent waiter first. */
  datatype File = File(
    key: string,
    contents: seq<Byte>,
    owner: int,
    isOpen: bool,
    isLocked: bool,
    subs: seq<int>
  )

  /** `Aborted` stands for the process stopping on the waiter assertion of a lock request. */
  datatype Answer =
    | Ok
    | OkWait
    | AlreadyOpen
    | AlreadyCreated
    | AlreadyClosed
    | AlreadyUnlocked
    | NotFound
    | CantOpen
    | CantClose
    | Aborted

  datatype Op =
    | Create(key: string, fd: int, lock: bool)
    | Open(key: string, fd: int, lock: bool)
    | Close(key: string, fd: int)
    | Lock(key: string, fd: int)
    | Unlock(key: string, fd: int)
    | Remove(key: string, fd: int)
    | Replace(key: string, data: seq<Byte>)
    | Append(key: string, data: seq<Byte>)

  /** The record after the request (`None`: no such file), the answer, and the waiter the lock
      was handed to, if any. */
  datatype Decision = Decision(next: Option<File>, answer: Answer, woken: Option<int>)

  function Fresh(key: string, fd: int, lock: bool): File {
    File(key, [], fd, true, lock, [])
  }

  /** Held by a client other than `fd`. */
  predicate HeldAgainst(f: File, fd: int) {
    f.isLocked && f.owner != fd
  }

  function Keep(f: File, a: Answer): Decision {
    Decision(Some(f), a, None)
  }

  function LockFile(f: File, fd: int): Decision {
    if f.isLocked then
      Keep(f.(subs := [fd] + f.subs), OkWait)
    else if f.subs != [] then
      Keep(f, Aborted)
    else
      Keep(f.(isLocked := true, owner := fd), Ok)
  }

  function UnlockFile(f: File, fd: int): Decision {
    if !f.isLocked then
      Keep(f, AlreadyUnlocked)
    else if f.owner != fd then
      Keep(f, OkWait)
    else if f.subs == [] then
      Keep(f.(isLocked := false), Ok)
    else
      Decision(Some(f.(owner := f.subs[0], subs := f.subs[1..])), Ok, Some(f.subs[0]))
  }

  function OpenFile(f: File, fd: int, lock: bool): Decision {
    if f.isOpen then
      Keep(f, AlreadyOpen)
    else if HeldAgainst(f, fd) then
      Keep(f, CantOpen)
    else
      Keep(f.(isOpen := true, isLocked := lock, owner := fd), Ok)
  }

  function CloseFile(f: File, fd: int): Decision {
    if !f.isOpen then
      Keep(f, AlreadyClosed)
    else if HeldAgainst(f, fd) then
      Keep(f, CantClose)
    else
      Keep(f.(isOpen := false), Ok)
  }

  /** Descriptor -1 removes whatever the lock says; a refused removal still answers `Ok`. */
  function RemoveFile(f: File, fd: int): Decision {
    if HeldAgainst(f, fd) && fd != -1 then Keep(f, Ok) else Decision(None, Ok, None)
  }

  function Decide(op: Op, cur: Option<File>): Decision {
    if cur.None? then
      if op.Create? then Keep(Fresh(op.key, op.fd, op.lock), Ok) else Decision(None, NotFound, None)
    else
      var f := cur.value;
      match op
      case Create(_, _, _) => Keep(f, AlreadyCreated)
      case Open(_, fd, lock) => OpenFile(f, fd, lock)
      case Close(_, fd) => CloseFile(f, fd)
      case Lock(_, fd) => LockFile(f, fd)
      case Unlock(_, fd) => UnlockFile(f, fd)
      case Remove(_, fd) => RemoveFile(f, fd)
      case Replace(_, data) => Keep(f.(contents := data), Ok)
      case Append(_, data) => Keep(f.(contents := f.contents + data), Ok)
  }

  predicate IsWrite(op: Op) {
    op.Replace? || op.Append?
  }

  // Weights used by the accounting of the storage table.

  function One(f: File): int { 1 }

  function Size(f: File): int { |f.contents| }

  function Opened(f: File): int { if f.isOpen then 1 else 0 }

  /** The weight of a record that may be missing. */
  function WeightOf(f: Option<File>, w: File -> int): int {
    if f.Some? then w(f.value) else 0
  }
}
