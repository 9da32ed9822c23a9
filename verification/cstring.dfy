/** C strings and the outcomes of C accesses, as the shell's code uses them. */
module CString {

  datatype Option<T> = None | Some(value: T)

  /** The outcome of an access that C leaves undefined when it is out of
      bounds or through a null pointer, made explicit. */
  datatype Checked<T> = Ok(value: T) | OutOfBounds(index: int, size: nat) | NullDeref

  const Nul: char := '\0'

  /** The characters of a C string: none of them is the terminator. */
  predicate NoNul(s: string) { Nul !in s }

  /** A character buffer that holds a terminated C string. */
  predicate Terminated(buf: seq<char>) { Nul in buf }

  /** strlen: the index of the first terminator. */
  function StrLen(buf: seq<char>): (n: nat)
    requires Terminated(buf)
    ensures n < |buf| && buf[n] == Nul && NoNul(buf[..n])
  {
    if buf[0] == Nul then 0
    else
      assert buf == [buf[0]] + buf[1..];
      var m := StrLen(buf[1..]);
      assert buf[..m + 1] == [buf[0]] + buf[1..][..m];
      m + 1
  }

  /** The C string a buffer holds: the characters before its first terminator. */
  function Contents(buf: seq<char>): (s: string)
    requires Terminated(buf)
    ensures NoNul(s) && s + [Nul] <= buf
  {
    assert buf[..StrLen(buf) + 1] == buf[..StrLen(buf)] + [Nul];
    buf[..StrLen(buf)]
  }

  /** A buffer that holds s followed by a terminator holds exactly s. */
  lemma {:induction false} ContentsOf(buf: seq<char>, s: string)
    requires NoNul(s) && s + [Nul] <= buf
    ensures Terminated(buf) && Contents(buf) == s
  {
    assert buf[|s|] == Nul;
    var n := StrLen(buf);
    assert forall i :: 0 <= i < |s| ==> buf[i] == s[i];
    assert buf[..n] == s;
  }
}
