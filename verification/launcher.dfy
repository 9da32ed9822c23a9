/** The program path of spawnChild (main.c:145-146): "/usr/bin/" and the
    command name, put together with strncat in a 64-byte buffer. */
module Launcher {
  import opened CString

  /** The one directory programs are looked up in. */
  const BinDir: string := "/usr/bin/"

  /** The size of the `program` buffer. */
  const ProgramBufferSize: nat := 64

  /** The longest name that fits after BinDir with its terminator: 54. */
  const MaxNameLength: nat := ProgramBufferSize - |BinDir| - 1

  /** The path spawnChild hands to execve, with strncat's bound corrected to
      the room left in the buffer: BinDir and as much of the name as fits. */
  function ProgramPath(name: string): (r: string)
    ensures |r| < ProgramBufferSize
    ensures BinDir <= r && r[|BinDir|..] <= name
    ensures r == BinDir + name <==> |name| <= MaxNameLength
    ensures |name| > MaxNameLength ==> |r| == ProgramBufferSize - 1
  {
    if |name| <= MaxNameLength then BinDir + name
    else BinDir + name[..MaxNameLength]
  }

  /** `char program[64] = "/usr/bin/"; strncat(program, file, n);` with n
      the room left: the buffer holds ProgramPath(file). */
  method BuildProgramPath(file: string) returns (program: array<char>)
    requires NoNul(file)
    ensures program.Length == ProgramBufferSize
    ensures Terminated(program[..]) && Contents(program[..]) == ProgramPath(file)
  {
    program := new char[ProgramBufferSize](i requires 0 <= i < ProgramBufferSize =>
                 if i < |BinDir| then BinDir[i] else Nul);
    var n := 0;
    while n < |file| && n < MaxNameLength
      invariant n <= |file| && n <= MaxNameLength
      invariant program[..|BinDir| + n] == BinDir + file[..n]
      invariant forall i :: |BinDir| + n <= i < ProgramBufferSize ==> program[i] == Nul
    {
      program[|BinDir| + n] := file[n];
      n := n + 1;
      assert program[..|BinDir| + n] == program[..|BinDir| + n - 1] + [file[n - 1]];
      assert file[..n] == file[..n - 1] + [file[n - 1]];
    }
    var path := BinDir + file[..n];
    assert path == ProgramPath(file);
    assert program[..][..|path|] == path;
    assert NoNul(path) by {
      assert forall c :: c in file[..n] ==> c in file;
    }
    ContentsOf(program[..], path);
  }

  /** The bytes strncat(program, file, 64) writes as written: it may append
      up to 64 characters and a terminator after the 9 of BinDir, so a name
      longer than 54 characters runs past the 64-byte buffer; the result is
      the index of the last byte written when that happens. */
  function AsWrittenProgramPath(name: string): (r: Checked<string>)
    ensures r.OutOfBounds? <==> |name| > MaxNameLength
    ensures r.Ok? ==> r.value == ProgramPath(name)
  {
    var appended := if |name| <= 64 then |name| else 64;
    var last := |BinDir| + appended;
    if last >= ProgramBufferSize then OutOfBounds(last, ProgramBufferSize)
    else Ok(BinDir + name[..appended])
  }

  /** A 55-character name is enough: its terminator lands on byte 64. */
  lemma {:induction false} AsWrittenPathOverflows()
    ensures AsWrittenProgramPath(seq(55, _ => 'a')) == OutOfBounds(64, ProgramBufferSize)
  {
  }
}
