/** removeTrailingNewline (main.c:114-124): drops one final '\n' from a C
    string by overwriting it with the terminator. */
module Newline {
  import opened CString

  const LineFeed: char := '\n'

  /** The string without its final newline, if it has one. */
  function StripNewline(s: string): (r: string)
    ensures s == r + [LineFeed] || (s == r && (s == [] || s[|s| - 1] != LineFeed))
  {
    if |s| > 0 && s[|s| - 1] == LineFeed then s[..|s| - 1] else s
  }

  /** A character buffer holding a C string; a null pointer is a no-op. The
      buffer then holds the string without its final newline, and only the
      newline's slot may have changed, to the terminator. */
  method RemoveTrailingNewline(str: array?<char>)
    requires str != null ==> Terminated(str[..])
    modifies str
    ensures str != null ==> Terminated(str[..]) && Contents(str[..]) == StripNewline(old(Contents(str[..])))
    ensures str != null ==> forall i :: 0 <= i < str.Length && str[i] != old(str[i]) ==>
              i == old(StrLen(str[..])) - 1 && str[i] == Nul
  {
    if str == null {
      return;
    }
    ghost var s := Contents(str[..]);
    var len := StrLen(str[..]);
    if len > 0 && str[len - 1] == LineFeed {
      str[len - 1] := Nul;
      assert str[..][..len - 1] == s[..len - 1];
      ContentsOf(str[..], s[..len - 1]);
    }
  }

  /** removeTrailingNewline as written reads str[len-1] before looking at
      len. For the empty string that is index -1: outside the string, which
      is outside the allocation only when the string starts it.
      OutOfBounds(-1, 0) records the read outside the string. */
  function AsWrittenRemoveTrailingNewline(s: string): (r: Checked<string>)
    ensures r.OutOfBounds? <==> s == []
    ensures r.OutOfBounds? ==> r.index == -1
    ensures r.Ok? ==> r.value == StripNewline(s)
  {
    var last := |s| - 1;
    if last < 0 then OutOfBounds(last, |s|)
    else if s[last] == LineFeed then Ok(s[..last])
    else Ok(s)
  }
}
