/** Quoting of string values in the .config file (confdata.c). */
module Escape {
  import opened Tristates

  const NUL: char := '\0'

  predicate Special(c: char) {
    c == '"' || c == '\\'
  }

  predicate NulFree(s: string) {
    NUL !in s
  }

  /** Every quote and backslash gets a backslash in front. */
  function Quoted(s: string): string {
    if s == [] then []
    else if Special(s[|s| - 1]) then Quoted(s[..|s| - 1]) + ['\\', s[|s| - 1]]
    else Quoted(s[..|s| - 1]) + [s[|s| - 1]]
  }

  function Escaped(s: string): string {
    "\"" + Quoted(s) + "\""
  }

  /** Only quotes and backslashes make the text longer, by one character each. */
  lemma {:induction false} QuotedLength(s: string)
    ensures |Quoted(s)| == |s| + multiset(s)['"'] + multiset(s)['\\']
    ensures '"' !in s && '\\' !in s ==> Quoted(s) == s
  {
    if s != [] {
      QuotedLength(s[..|s| - 1]);
      assert s == s[..|s| - 1] + [s[|s| - 1]];
    }
  }

  /** What reading gives after an opening quote: the characters up to the next
      quote, a backslash standing for the character behind it. */
  function Unescaped(s: string): Option<string> {
    if s == [] then None
    else if s[0] == '"' then Some([])
    else if s[0] == '\\' then
      if |s| == 1 then None else Behind([s[1]], Unescaped(s[2..]))
    else Behind([s[0]], Unescaped(s[1..]))
  }

  function Behind(front: string, rest: Option<string>): Option<string> {
    if rest.None? then None else Some(front + rest.value)
  }

  lemma BehindBehind(a: string, b: string, rest: Option<string>)
    ensures Behind(a, Behind(b, rest)) == Behind(a + b, rest) && Behind([], rest) == rest
  {
    if rest.Some? {
      assert a + (b + rest.value) == (a + b) + rest.value;
      assert [] + rest.value == rest.value;
    }
  }

  // ----- the text in a C buffer -----

  /** strcspn(p, "\"\\"): how many characters come before the next special one. */
  function Span(s: string, p: nat): (n: nat)
    requires p <= |s|
    ensures p + n <= |s| && (p + n == |s| || Special(s[p + n]))
    ensures forall k :: p <= k < p + n ==> !Special(s[k])
    decreases |s| - p
  {
    if p == |s| || Special(s[p]) then 0 else 1 + Span(s, p + 1)
  }

  lemma {:induction false} QuotedPlain(s: string, p: nat, q: nat)
    requires p <= q <= |s| && forall k :: p <= k < q ==> !Special(s[k])
    ensures Quoted(s[..q]) == Quoted(s[..p]) + s[p..q]
    decreases q
  {
    if p < q {
      QuotedPlain(s, p, q - 1);
      assert s[..q][..q - 1] == s[..q - 1];
      assert s[p..q] == s[p..q - 1] + [s[q - 1]];
    }
  }

  lemma QuotedSpecial(s: string, p: nat)
    requires p < |s| && Special(s[p])
    ensures Quoted(s[..p + 1]) == Quoted(s[..p]) + ['\\', s[p]]
  {
    assert s[..p + 1][..p] == s[..p];
  }

  /** A C string in a buffer of fixed size. */
  class Buffer {
    const data: array<char>
    var len: nat

    predicate Valid()
      reads this, data
    {
      len < data.Length && data[len] == NUL
    }

    function Text(): string
      reads this, data
      requires Valid()
    {
      data[..len]
    }

    constructor (size: nat)
      requires size > 0
      ensures Valid() && Text() == "" && data.Length == size && fresh(data)
    {
      data := new char[size];
      len := 0;
      new;
      data[0] := NUL;
    }

    /** strcat and strncat: only allowed when the buffer has the room. */
    method Append(t: string)
      requires Valid() && len + |t| < data.Length
      modifies this`len, data
      ensures Valid() && Text() == old(Text()) + t && len == old(len) + |t|
    {
      var i := 0;
      while i < |t|
        invariant 0 <= i <= |t| && len == old(len)
        invariant forall k :: 0 <= k < i ==> data[len + k] == t[k]
        invariant forall k :: 0 <= k < len ==> data[k] == old(data[k])
      {
        data[len + i] := t[i];
        i := i + 1;
      }
      data[len + |t|] := NUL;
      len := len + |t|;
    }
  }

  /** The first pass of escape_string_value: the size of the buffer to allocate. */
  method EscapedSize(s: string) returns (len: nat)
    ensures len == |Escaped(s)| + 1
  {
    len := |s| + 2 + 1;
    var p := 0;
    while true
      invariant 0 <= p <= |s|
      invariant len == |s| - p + |Quoted(s[..p])| + 3
      decreases |s| - p
    {
      var q := p + Span(s, p);
      QuotedPlain(s, p, q);
      p := q;
      if p == |s| {
        break;
      }
      QuotedSpecial(s, p);
      len := len + 1;
      p := p + 1;
    }
    assert s[..p] == s;
  }

  /** The second pass: it fills the buffer and never writes beyond it. */
  method FillEscaped(s: string, out: Buffer)
    requires out.Valid() && out.Text() == "\"" && out.data.Length == |Escaped(s)| + 1
    modifies out, out.data
    ensures out.Valid() && out.Text() == "\"" + Quoted(s)
  {
    var p := 0;
    assert s[..0] == [];
    while true
      invariant 0 <= p <= |s| && out.Valid()
      invariant out.Text() == "\"" + Quoted(s[..p])
      decreases |s| - p
    {
      var q := p + Span(s, p);
      QuotedPlain(s, p, q);
      QuotedGrows(s, q);
      out.Append(s[p..q]);
      p := q;
      if p == |s| {
        break;
      }
      AppendSpecial(s, p, out);
      p := p + 1;
    }
    assert s[..p] == s;
  }

  method AppendSpecial(s: string, p: nat, out: Buffer)
    requires p < |s| && Special(s[p]) && out.Valid() && out.data.Length == |Escaped(s)| + 1
    requires out.Text() == "\"" + Quoted(s[..p])
    modifies out, out.data
    ensures out.Valid() && out.Text() == "\"" + Quoted(s[..p + 1])
  {
    QuotedSpecial(s, p);
    QuotedGrows(s, p + 1);
    out.Append("\\");
    out.Append(s[p..p + 1]);
  }

  /** escape_string_value: the buffer is filled exactly. */
  method EscapeStringValue(s: string) returns (out: Buffer)
    ensures fresh(out) && fresh(out.data) && out.Valid()
    ensures out.Text() == Escaped(s) && out.data.Length == |Escaped(s)| + 1
  {
    var len := EscapedSize(s);
    out := new Buffer(len);
    out.Append("\"");
    FillEscaped(s, out);
    out.Append("\"");
  }

  lemma {:induction false} QuotedGrows(s: string, p: nat)
    requires p <= |s|
    ensures |Quoted(s[..p])| <= |Quoted(s)|
    decreases |s| - p
  {
    if p < |s| {
      QuotedGrows(s, p + 1);
      assert s[..p + 1][..p] == s[..p];
    } else {
      assert s[..p] == s;
    }
  }

  // ----- reading -----

  /** strpbrk from position p: the next special character before the terminator. */
  method FindSpecial(buf: array<char>, p: nat, end: nat) returns (j: nat)
    requires p <= end < buf.Length && buf[end] == NUL && forall k :: p <= k < end ==> buf[k] != NUL
    ensures p <= j <= end && (j < end ==> Special(buf[j]))
    ensures forall k :: p <= k < j ==> !Special(buf[k])
  {
    j := p;
    while buf[j] != NUL && !Special(buf[j])
      invariant p <= j <= end
      invariant forall k :: p <= k < j ==> !Special(buf[k])
      decreases end - j
    {
      j := j + 1;
    }
  }

  /** memmove(p, p + 1, strlen(p)): drops one character, the terminator moves too. */
  method DropOne(buf: array<char>, p: nat, end: nat)
    requires p < end < buf.Length
    modifies buf
    ensures buf[..] == old(buf[..p] + buf[p + 1..end + 1] + buf[end..])
  {
    var i := p;
    while i < end
      invariant p <= i <= end
      invariant forall k :: 0 <= k < p ==> buf[k] == old(buf[k])
      invariant forall k :: p <= k < i ==> buf[k] == old(buf[k + 1])
      invariant forall k :: i <= k < buf.Length ==> buf[k] == old(buf[k])
    {
      buf[i] := buf[i + 1];
      i := i + 1;
    }
  }

  /** Plain characters are read as they are. */
  lemma {:induction false} UnescapedPlain(todo: string, n: nat)
    requires n <= |todo| && forall k :: 0 <= k < n ==> !Special(todo[k])
    ensures Unescaped(todo) == Behind(todo[..n], Unescaped(todo[n..]))
  {
    if n > 0 {
      UnescapedPlain(todo[1..], n - 1);
      assert todo[1..][n - 1..] == todo[n..];
      assert todo[..n] == [todo[0]] + todo[1..][..n - 1];
      BehindBehind([todo[0]], todo[1..][..n - 1], Unescaped(todo[n..]));
    } else {
      assert todo[n..] == todo;
      BehindBehind([], [], Unescaped(todo));
    }
  }

  /** The in-place loop of conf_set_sym_val on a value that starts at `start`,
      behind the opening quote, and ends at the terminator `end`. */
  method UnescapeInPlace(buf: array<char>, start: nat, end: nat) returns (ok: bool, stop: nat)
    requires start <= end < buf.Length && buf[end] == NUL && forall k :: start <= k < end ==> buf[k] != NUL
    modifies buf
    ensures ok == old(Unescaped(buf[start..end])).Some?
    ensures ok ==>
        start <= stop < buf.Length && buf[stop] == NUL && buf[start..stop] == old(Unescaped(buf[start..end])).value
    ensures buf[..start] == old(buf[..start])
  {
    hide Unescaped, Behind;
    ghost var all := Unescaped(buf[start..end]);
    var p: nat, z: nat := start, end;
    assert buf[start..p] == [];
    BehindBehind([], [], all);
    while true
      invariant Reading(buf[..], start, p, z, all) && buf[..start] == old(buf[..start])
      decreases z - p
    {
      var j := FindSpecial(buf, p, z);
      ReadPlain(buf[..], start, p, z, j, all);
      if buf[j] == NUL {
        ReadNothing(buf[..], start, j, all);
        return false, 0;
      }
      if buf[j] == '"' {
        ReadQuote(buf[..], start, j, z, all);
        buf[j] := NUL;
        return true, j;
      }
      ghost var before := buf[..];
      DropOne(buf, j, z);
      ReadEscape(before, buf[..], start, j, z, all);
      z, p := if j + 1 < z then z - 1 else z, j + 1;
    }
  }

  /** The value read from the buffer is what stands before p, and then what the
      text from p to the terminator z gives. */
  ghost predicate Reading(buf: string, start: nat, p: nat, z: nat, all: Option<string>) {
    && start <= p <= z < |buf| && buf[z] == NUL && (forall k :: p <= k < z ==> buf[k] != NUL)
    && all == Behind(buf[start..p], Unescaped(buf[p..z]))
  }

  lemma ReadPlain(buf: string, start: nat, p: nat, z: nat, j: nat, all: Option<string>)
    requires Reading(buf, start, p, z, all) && p <= j <= z && forall k :: p <= k < j ==> !Special(buf[k])
    ensures Reading(buf, start, j, z, all)
  {
    hide Unescaped, Behind;
    var todo := buf[p..z];
    PartOfPart(buf, p, j, z);
    UnescapedPlain(todo, j - p);
    PartsMeet(buf, start, p, j);
    BehindBehind(buf[start..p], buf[p..j], Unescaped(buf[j..z]));
  }

  lemma PartOfPart(s: string, p: nat, j: nat, z: nat)
    requires p <= j <= z <= |s|
    ensures s[p..z][j - p..] == s[j..z] && s[p..z][..j - p] == s[p..j]
    ensures forall k :: 0 <= k < j - p ==> s[p..z][k] == s[p + k]
  {
  }

  lemma PartsMeet(s: string, i: nat, p: nat, j: nat)
    requires i <= p <= j <= |s|
    ensures s[i..p] + s[p..j] == s[i..j]
  {
  }

  lemma ReadNothing(buf: string, start: nat, z: nat, all: Option<string>)
    requires Reading(buf, start, z, z, all)
    ensures all.None?
  {
  }

  lemma ReadQuote(buf: string, start: nat, j: nat, z: nat, all: Option<string>)
    requires Reading(buf, start, j, z, all) && buf[j] == '"'
    ensures all == Some(buf[start..j])
  {
    assert buf[j..z][0] == '"';
    assert buf[start..j] + [] == buf[start..j];
  }

  /** After a backslash is dropped the reading goes on behind the next character;
      when there is none, it goes on at the old terminator. */
  lemma ReadEscape(buf: string, buf': string, start: nat, j: nat, z: nat, all: Option<string>)
    requires Reading(buf, start, j, z, all) && j < z && buf[j] == '\\'
    requires buf' == buf[..j] + buf[j + 1..z + 1] + buf[z..]
    ensures Reading(buf', start, j + 1, if j + 1 < z then z - 1 else z, all)
  {
    var todo := buf[j..z];
    assert forall k :: j <= k < z ==> buf'[k] == buf[k + 1];
    if j + 1 < z {
      assert todo[2..] == buf'[j + 1..z - 1] && todo[1] == buf'[j];
      assert buf'[start..j + 1] == buf[start..j] + [buf'[j]];
      BehindBehind(buf[start..j], [buf'[j]], Unescaped(todo[2..]));
    } else {
      assert buf'[j + 1..z] == [];
    }
  }

  // ----- the round trip -----

  /** Reading what was written gives the string back, whatever follows. */
  lemma {:induction false} QuotedUnescapes(s: string, rest: string)
    ensures Unescaped(Quoted(s) + rest) == Behind(s, Unescaped(rest))
  {
    if s == [] {
      assert Quoted(s) + rest == rest;
      BehindBehind([], [], Unescaped(rest));
    } else {
      var front, c := s[..|s| - 1], s[|s| - 1];
      var last := (if Special(c) then ['\\', c] else [c]) + rest;
      assert Quoted(s) + rest == Quoted(front) + last;
      QuotedUnescapes(front, last);
      OneUnescapes(c, rest);
      assert s == front + [c];
      BehindBehind(front, [c], Unescaped(rest));
    }
  }

  lemma OneUnescapes(c: char, rest: string)
    ensures Unescaped((if Special(c) then ['\\', c] else [c]) + rest) == Behind([c], Unescaped(rest))
  {
    if Special(c) {
      assert (['\\', c] + rest)[2..] == rest;
    } else {
      assert ([c] + rest)[1..] == rest;
    }
  }

  /** A string without NUL survives being written and read. */
  method RoundTrip(s: string) returns (ok: bool, back: string)
    requires NulFree(s)
    ensures ok && back == s
  {
    var out := EscapeStringValue(s);
    var buf, n := out.data, out.len;
    assert buf[..n] == Escaped(s);
    QuotedNulFree(s);
    assert buf[1..n] == Quoted(s) + "\"";
    QuotedUnescapes(s, "\"");
    assert s + [] == s;
    var stop;
    ok, stop := UnescapeInPlace(buf, 1, n);
    back := buf[1..stop];
  }

  lemma {:induction false} QuotedNulFree(s: string)
    requires NulFree(s)
    ensures NulFree(Quoted(s))
  {
    if s != [] {
      QuotedNulFree(s[..|s| - 1]);
    }
  }
}
