/** splitString (main.c:71-112): strtok over the delimiter " " into a
    NULL-terminated array of tokens. */
module Tokenizer {
  import opened CString

  /** The only delimiter runChild passes to splitString (main.c:173). */
  const Delimiter: char := ' '

  /** Slots of the token array splitString allocates (main.c:73). */
  const Capacity: nat := 256

  /** Tokens kept at most, so that the sentinel still has a slot. */
  const MaxTokens: nat := Capacity - 1

  function Min(a: nat, b: nat): nat { if a <= b then a else b }

  /** A token: non-empty and free of delimiters. */
  predicate IsWord(w: string) { w != [] && Delimiter !in w }

  predicate AllWords(ws: seq<string>) { forall i :: 0 <= i < |ws| ==> IsWord(ws[i]) }

  /** k delimiters in a row. */
  function Spaces(k: nat): string
  {
    if k == 0 then [] else [Delimiter] + Spaces(k - 1)
  }

  /** The length of the longest prefix of s without a delimiter. */
  function WordLength(s: string): (n: nat)
    ensures n <= |s|
    ensures forall i :: 0 <= i < n ==> s[i] != Delimiter
    ensures n < |s| ==> s[n] == Delimiter
  {
    if s == [] || s[0] == Delimiter then 0 else 1 + WordLength(s[1..])
  }

  /** The fields of s: its maximal runs of non-delimiter characters, left to right. */
  function Fields(s: string): (r: seq<string>)
    ensures AllWords(r)
    decreases |s|
  {
    if s == [] then []
    else if s[0] == Delimiter then Fields(s[1..])
    else
      var n := WordLength(s);
      [s[..n]] + Fields(s[n..])
  }

  // ---------------------------------------------------------------------
  // What the fields are: a line is its fields laid out between runs of
  // spaces, and laying words out that way gives them back.

  /** ws[0], ..., ws[n-1] with gaps[i] spaces in front of ws[i] and gaps[n] after the last. */
  function Layout(ws: seq<string>, gaps: seq<nat>): string
    requires |gaps| == |ws| + 1
    decreases |ws|
  {
    if ws == [] then Spaces(gaps[0])
    else Spaces(gaps[0]) + ws[0] + Layout(ws[1..], gaps[1..])
  }

  /** Consecutive words are kept apart by at least one space. */
  predicate Separated(ws: seq<string>, gaps: seq<nat>)
  {
    |gaps| == |ws| + 1 && forall i :: 0 < i < |ws| ==> gaps[i] > 0
  }

  lemma {:induction false} FieldsOfSpaces(k: nat, s: string)
    ensures Fields(Spaces(k) + s) == Fields(s)
  {
    if k == 0 {
      assert Spaces(k) + s == s;
    } else {
      var t := Spaces(k) + s;
      assert t[1..] == Spaces(k - 1) + s;
      FieldsOfSpaces(k - 1, s);
    }
  }

  lemma {:induction false} FieldsOfWord(w: string, s: string)
    requires IsWord(w) && (s == [] || s[0] == Delimiter)
    ensures Fields(w + s) == [w] + Fields(s)
  {
    var t := w + s;
    var n := WordLength(t);
    assert t[|w|..] == s;
    assert n == |w|;
    assert t[..n] == w;
  }

  /** Laying words out between spaces and splitting the result gives the words back. */
  lemma {:induction false} FieldsOfLayout(ws: seq<string>, gaps: seq<nat>)
    requires AllWords(ws) && Separated(ws, gaps)
    ensures Fields(Layout(ws, gaps)) == ws
    decreases |ws|
  {
    if ws == [] {
      FieldsOfSpaces(gaps[0], []);
      assert Spaces(gaps[0]) + [] == Spaces(gaps[0]);
    } else {
      var rest := Layout(ws[1..], gaps[1..]);
      FieldsOfLayout(ws[1..], gaps[1..]);
      if ws[1..] != [] {
        assert gaps[1..][0] > 0;
        assert rest == Spaces(gaps[1]) + ws[1] + Layout(ws[2..], gaps[2..]);
        assert rest[0] == Delimiter;
      }
      FieldsOfWord(ws[0], rest);
      assert Spaces(gaps[0]) + ws[0] + rest == Spaces(gaps[0]) + (ws[0] + rest);
      FieldsOfSpaces(gaps[0], ws[0] + rest);
    }
  }

  /** The spaces in front of each field of s, and after the last. */
  function GapsOf(s: string): (g: seq<nat>)
    ensures |g| == |Fields(s)| + 1
    decreases |s|
  {
    if s == [] then [0]
    else if s[0] == Delimiter then
      var g := GapsOf(s[1..]);
      [g[0] + 1] + g[1..]
    else [0] + GapsOf(s[WordLength(s)..])
  }

  /** One more leading space in the layout is one more space in front. */
  lemma {:induction false} LayoutWiderFront(ws: seq<string>, g: seq<nat>)
    requires |g| == |ws| + 1
    ensures Layout(ws, [g[0] + 1] + g[1..]) == [Delimiter] + Layout(ws, g)
  {
    var g' := [g[0] + 1] + g[1..];
    var sp := Spaces(g[0]);
    assert Spaces(g'[0]) == [Delimiter] + sp;
    if ws != [] {
      var rest := Layout(ws[1..], g[1..]);
      assert g'[1..] == g[1..];
      assert Layout(ws, g') == [Delimiter] + sp + ws[0] + rest;
      assert Layout(ws, g) == sp + ws[0] + rest;
      assert [Delimiter] + sp + ws[0] + rest == [Delimiter] + (sp + ws[0] + rest);
    }
  }

  /** A leading word adds itself to the front of the layout. */
  lemma {:induction false} LayoutWordFront(w: string, ws: seq<string>, g: seq<nat>)
    requires |g| == |ws| + 1
    ensures Layout([w] + ws, [0] + g) == w + Layout(ws, g)
  {
    assert ([w] + ws)[1..] == ws;
    assert ([0] + g)[1..] == g;
    assert Spaces(0) + w == w;
  }

  /** The layout of the fields survives a leading space. */
  lemma {:induction false} LayoutOfFieldsAfterSpace(s: string)
    requires s != [] && s[0] == Delimiter
    requires Separated(Fields(s[1..]), GapsOf(s[1..]))
    requires Layout(Fields(s[1..]), GapsOf(s[1..])) == s[1..]
    ensures Separated(Fields(s), GapsOf(s))
    ensures Layout(Fields(s), GapsOf(s)) == s
  {
    LayoutWiderFront(Fields(s[1..]), GapsOf(s[1..]));
    assert s == [s[0]] + s[1..];
  }

  /** The layout of the fields survives a leading word. */
  lemma {:induction false} LayoutOfFieldsAfterWord(s: string)
    requires s != [] && s[0] != Delimiter
    requires Separated(Fields(s[WordLength(s)..]), GapsOf(s[WordLength(s)..]))
    requires Layout(Fields(s[WordLength(s)..]), GapsOf(s[WordLength(s)..])) == s[WordLength(s)..]
    ensures Separated(Fields(s), GapsOf(s))
    ensures Layout(Fields(s), GapsOf(s)) == s
  {
    var n := WordLength(s);
    var t := s[n..];
    var ws, g := Fields(t), GapsOf(t);
    assert Fields(s) == [s[..n]] + ws;
    assert GapsOf(s) == [0] + g;
    forall i | 0 < i < |ws| + 1
      ensures ([0] + g)[i] > 0
    {
      if i == 1 {
        assert t != [] && t[0] == Delimiter;
        assert g == [GapsOf(t[1..])[0] + 1] + GapsOf(t[1..])[1..];
      } else {
        assert ([0] + g)[i] == g[i - 1];
      }
    }
    LayoutWordFront(s[..n], ws, g);
    assert s[..n] + t == s;
  }

  /** Every line is its fields laid out between runs of spaces: nothing but
      spaces is dropped, and no field is split or merged. */
  lemma {:induction false} LayoutOfFields(s: string)
    ensures Separated(Fields(s), GapsOf(s))
    ensures Layout(Fields(s), GapsOf(s)) == s
    decreases |s|
  {
    if s == [] {
    } else if s[0] == Delimiter {
      LayoutOfFields(s[1..]);
      LayoutOfFieldsAfterSpace(s);
    } else {
      LayoutOfFields(s[WordLength(s)..]);
      LayoutOfFieldsAfterWord(s);
    }
  }

  /** Splitting "ls -la /tmp\n" gives three fields, the newline staying on
      the last; an empty line gives none. */
  lemma {:induction false} FieldsExample()
    ensures Fields("ls -la /tmp\n") == ["ls", "-la", "/tmp\n"]
    ensures Fields("") == []
  {
    var ws := ["ls", "-la", "/tmp\n"];
    var gaps: seq<nat> := [0, 1, 1, 0];
    assert Layout(ws[2..], gaps[2..]) == Spaces(1) + "/tmp\n" + Layout([], [0]);
    assert Layout(ws[1..], gaps[1..]) == Spaces(1) + "-la" + Layout(ws[2..], gaps[2..]);
    assert Layout(ws, gaps) == "ls -la /tmp\n";
    FieldsOfLayout(ws, gaps);
  }

  /** Every character of a field is a character of the line. */
  lemma {:induction false} FieldCharacters(s: string, i: nat, c: char)
    requires i < |Fields(s)| && c in Fields(s)[i]
    ensures c in s
    decreases |s|
  {
    if s[0] == Delimiter {
      FieldCharacters(s[1..], i, c);
    } else {
      var n := WordLength(s);
      if i == 0 {
        assert c in s[..n];
      } else {
        FieldCharacters(s[n..], i - 1, c);
      }
    }
  }

  // ---------------------------------------------------------------------
  // strtok and the token loop.

  /** The index of the first non-delimiter at or after i. */
  function SkipDelimiters(s: string, i: nat): (j: nat)
    requires i <= |s|
    ensures i <= j <= |s|
    ensures forall k :: i <= k < j ==> s[k] == Delimiter
    ensures j < |s| ==> s[j] != Delimiter
    decreases |s| - i
  {
    if i == |s| || s[i] != Delimiter then i else SkipDelimiters(s, i + 1)
  }

  /** One call of strtok(_, " ") whose saved position is cursor: the next
      token and the position saved for the following call, or None at the
      end of the string. */
  function Strtok(s: string, cursor: nat): (r: Option<(string, nat)>)
    requires cursor <= |s|
    ensures r.Some? ==> cursor < r.value.1 <= |s| && IsWord(r.value.0)
  {
    var start := SkipDelimiters(s, cursor);
    if start == |s| then None
    else
      var end := start + WordLength(s[start..]);
      Some((s[start..end], if end < |s| then end + 1 else end))
  }

  lemma {:induction false} FieldsAfterSpaces(s: string, i: nat, j: nat)
    requires i <= j <= |s|
    requires forall k :: i <= k < j ==> s[k] == Delimiter
    ensures Fields(s[i..]) == Fields(s[j..])
    decreases j - i
  {
    if i < j {
      assert s[i..][1..] == s[i + 1..];
      FieldsAfterSpaces(s, i + 1, j);
    }
  }

  /** strtok yields the fields of the rest of the string one at a time. */
  lemma {:induction false} StrtokNextField(s: string, cursor: nat)
    requires cursor <= |s|
    ensures Strtok(s, cursor).None? <==> Fields(s[cursor..]) == []
    ensures Strtok(s, cursor).Some? ==>
      Fields(s[cursor..]) == [Strtok(s, cursor).value.0] + Fields(s[Strtok(s, cursor).value.1..])
  {
    var start := SkipDelimiters(s, cursor);
    FieldsAfterSpaces(s, cursor, start);
    if start < |s| {
      var u := s[start..];
      var n := WordLength(u);
      var end := start + n;
      assert Fields(u) == [u[..n]] + Fields(u[n..]);
      assert u[..n] == s[start..end];
      assert u[n..] == s[end..];
      if end < |s| {
        FieldsAfterSpaces(s, end, end + 1);
      }
      assert Strtok(s, cursor) == Some((s[start..end], if end < |s| then end + 1 else end));
    } else {
      assert s[start..] == [];
    }
  }

  /** realloc: a fresh array holding the first n slots of a. */
  method Realloc(a: array<Option<string>>, n: nat) returns (b: array<Option<string>>)
    requires n <= a.Length
    ensures b.Length == n && b[..] == a[..n]
  {
    b := new Option<string>[n](i requires 0 <= i < n reads a => a[i]);
  }

  /** splitString(str, " "), with the token cap corrected so that the
      sentinel always has a slot: the first MaxTokens fields of the line,
      in order, then None; later fields are dropped. */
  method SplitString(str: string) returns (tokens: array<Option<string>>, count: nat)
    ensures count == Min(|Fields(str)|, MaxTokens)
    ensures tokens.Length == count + 1
    ensures forall i :: 0 <= i < count ==> tokens[i] == Some(Fields(str)[i])
    ensures tokens[count] == None
  {
    ghost var fields := Fields(str);
    var sStr := new Option<string>[Capacity](_ => None);
    count := 0;
    var cursor := 0;
    var token := Strtok(str, cursor);
    while token.Some?
      invariant cursor <= |str|
      invariant token == Strtok(str, cursor)
      invariant count <= MaxTokens && count <= |fields|
      invariant Fields(str[cursor..]) == fields[count..]
      invariant forall i :: 0 <= i < count ==> sStr[i] == Some(fields[i])
      decreases |str| - cursor
    {
      StrtokNextField(str, cursor);
      if count >= MaxTokens {
        break;
      }
      assert fields[count..] == [token.value.0] + Fields(str[token.value.1..]);
      assert fields[count] == token.value.0;
      assert fields[count + 1..] == fields[count..][1..];
      sStr[count] := Some(token.value.0);
      count := count + 1;
      cursor := token.value.1;
      token := Strtok(str, cursor);
    }
    StrtokNextField(str, cursor);
    sStr[count] := None;
    tokens := Realloc(sStr, count + 1);
  }

  // ---------------------------------------------------------------------
  // The cap as written: `if (tokenIndex > 256) break;` on a 256-slot array.

  /** The slot indices the token loop stores into, as written, when pending
      tokens remain and tokenIndex is the next index. */
  function AsWrittenStores(pending: nat, tokenIndex: nat): (r: seq<nat>)
    ensures |r| <= pending
    ensures forall k :: 0 <= k < |r| ==> tokenIndex <= r[k] <= 256
    decreases pending
  {
    if pending == 0 || tokenIndex > 256 then []
    else [tokenIndex] + AsWrittenStores(pending - 1, tokenIndex + 1)
  }

  /** Every slot index splitString writes as written: the tokens, then the sentinel. */
  function AsWrittenSlotWrites(str: string): (r: seq<nat>)
    ensures r != [] && r[|r| - 1] == |r| - 1 && |r| <= |Fields(str)| + 1
  {
    var stores := AsWrittenStores(|Fields(str)|, 0);
    stores + [|stores|]
  }

  lemma {:induction false} AsWrittenStoresShape(pending: nat, tokenIndex: nat)
    ensures |AsWrittenStores(pending, tokenIndex)| ==
            if tokenIndex > 256 then 0 else Min(pending, 257 - tokenIndex)
    ensures forall i :: 0 <= i < |AsWrittenStores(pending, tokenIndex)| ==>
            AsWrittenStores(pending, tokenIndex)[i] == tokenIndex + i
    decreases pending
  {
    if pending > 0 && tokenIndex <= 256 {
      AsWrittenStoresShape(pending - 1, tokenIndex + 1);
    }
  }

  /** As written, a line of at least 256 fields makes splitString write
      slot 256 of its 256-slot array. */
  lemma {:induction false} AsWrittenSplitOverflows(str: string)
    requires |Fields(str)| >= Capacity
    ensures Capacity in AsWrittenSlotWrites(str)
  {
    AsWrittenStoresShape(|Fields(str)|, 0);
    var stores := AsWrittenStores(|Fields(str)|, 0);
    if |stores| == 256 {
      assert AsWrittenSlotWrites(str)[256] == 256;
    } else {
      assert stores[256] == 256;
      assert AsWrittenSlotWrites(str)[256] == 256;
    }
  }

  /** The 256 single-letter words "a a ... a" are such a line. */
  lemma {:induction false} AsWrittenSplitCounterexample()
    ensures var str := Layout(seq(256, _ => "a"), seq(257, i => if 0 < i < 256 then 1 else 0));
            Capacity in AsWrittenSlotWrites(str)
  {
    var ws := seq(256, _ => "a");
    var gaps: seq<nat> := seq(257, i => if 0 < i < 256 then 1 else 0);
    FieldsOfLayout(ws, gaps);
    AsWrittenSplitOverflows(Layout(ws, gaps));
  }
}
