/** The cd built-in (main.c:25-42): chdir, then one message per known
    failure kind. chdir itself belongs to the operating system, so its
    outcome is a parameter. */
module Builtins {
  import opened CString

  /** The errno values cd tells apart, and every other one. */
  datatype ChdirError =
    | NotADirectory     // ENOTDIR
    | AccessDenied      // EACCES
    | NameTooLong       // ENAMETOOLONG
    | NoSuchEntry       // ENOENT
    | SymlinkLoop       // ELOOP
    | OtherError

  datatype ChdirOutcome = Changed | Failed(error: ChdirError)

  /** What cd returns and what it prints. */
  datatype CdReport = CdReport(status: int, message: Option<string>)

  /** How printf's %s shows the filename; glibc prints a null pointer as "(null)". */
  function Shown(filename: Option<string>): string
  {
    match filename
    case Some(f) => f
    case None => "(null)"
  }

  const NotADirectorySuffix: string := " is not a directory.\n"
  const AccessDeniedMessage: string := "The process does not have search permission for directory.\n"
  const NameTooLongMessage: string := "Directory name is too long.\n"
  const NoSuchEntryMessage: string := "Directory does not exist.\n"
  const SymlinkLoopMessage: string := "Too many symbolic links were resolved while trying to look up the directory.\n"

  /** The message cd prints for a failure. */
  function Message(filename: Option<string>, error: ChdirError): (r: Option<string>)
    ensures r.Some? <==> error != OtherError
    ensures error == NotADirectory ==> Shown(filename) <= r.value
  {
    match error
    case NotADirectory => Some(Shown(filename) + NotADirectorySuffix)
    case AccessDenied => Some(AccessDeniedMessage)
    case NameTooLong => Some(NameTooLongMessage)
    case NoSuchEntry => Some(NoSuchEntryMessage)
    case SymlinkLoop => Some(SymlinkLoopMessage)
    case OtherError => None
  }

  /** cd(filename) given what chdir did: 0 on success, -1 on every failure,
      and a message exactly for the five known failure kinds. */
  function Cd(filename: Option<string>, outcome: ChdirOutcome): (r: CdReport)
    ensures r.status == 0 <==> outcome.Changed?
    ensures r.status == -1 <==> outcome.Failed?
    ensures r.message.Some? <==> outcome.Failed? && outcome.error != OtherError
    ensures outcome == Failed(NotADirectory) ==> r.message == Some(Shown(filename) + NotADirectorySuffix)
    ensures outcome == Failed(NoSuchEntry) ==> r.message == Some(NoSuchEntryMessage)
  {
    match outcome
    case Changed => CdReport(0, None)
    case Failed(e) => CdReport(-1, Message(filename, e))
  }

  /** The character k places from the end of m. */
  function FromEnd(m: string, k: nat): char
    requires 0 < k <= |m|
  {
    m[|m| - k]
  }

  lemma {:induction false} NotADirectoryTail(f: string)
    ensures FromEnd(f + NotADirectorySuffix, 3) == 'y'
    ensures FromEnd(f + NotADirectorySuffix, 13) == 'a'
  {
    var m := f + NotADirectorySuffix;
    assert m[|m| - 3] == NotADirectorySuffix[|NotADirectorySuffix| - 3];
    assert m[|m| - 13] == NotADirectorySuffix[|NotADirectorySuffix| - 13];
  }

  /** Each known failure kind has its own message, whatever the filenames. */
  lemma {:induction false} MessagesDistinct(f1: Option<string>, f2: Option<string>, e1: ChdirError, e2: ChdirError)
    requires e1 != e2 && e1 != OtherError && e2 != OtherError
    ensures Message(f1, e1) != Message(f2, e2)
  {
    NotADirectoryTail(Shown(f1));
    NotADirectoryTail(Shown(f2));
    assert FromEnd(AccessDeniedMessage, 13) == 'r';
    assert FromEnd(NameTooLongMessage, 3) == 'g';
    assert FromEnd(NoSuchEntryMessage, 3) == 't';
    assert FromEnd(SymlinkLoopMessage, 13) == 'e';
    assert FromEnd(AccessDeniedMessage, 3) == 'y';
    assert FromEnd(SymlinkLoopMessage, 3) == 'y';
  }
}
