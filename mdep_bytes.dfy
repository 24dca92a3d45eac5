/** Byte and C-string helpers of mdep.c: in-place byte reversal, the bounded string copy and
    concatenation the agent supplies where the C library lacks them, and the Windows command
    line built from an argument vector. */
module MdepBytes {
  import opened Base

  // ---------------------------------------------------------------------------------------
  // swap_bytes

  /** `s` read back to front. */
  function Reverse<T>(s: seq<T>): (r: seq<T>)
    ensures |r| == |s|
  {
    seq(|s|, k requires 0 <= k < |s| => s[|s| - 1 - k])
  }

  /** Reversing twice gives the buffer back: swap_bytes is its own inverse. */
  lemma ReverseTwice<T>(s: seq<T>)
    ensures Reverse(Reverse(s)) == s
  {
    var r := Reverse(s);
    assert forall k | 0 <= k < |s| :: Reverse(r)[k] == r[|s| - 1 - k] == s[k];
  }

  /** Reversal distributes over concatenation with the halves swapped. */
  lemma {:induction false} ReverseAppend<T>(a: seq<T>, b: seq<T>)
    ensures Reverse(a + b) == Reverse(b) + Reverse(a)
  {
    var l, r := Reverse(a + b), Reverse(b) + Reverse(a);
    forall k | 0 <= k < |a| + |b| ensures l[k] == r[k] {
      if k < |b| {
        assert l[k] == (a + b)[|a| + |b| - 1 - k] == b[|b| - 1 - k];
      } else {
        assert l[k] == (a + b)[|a| + |b| - 1 - k] == a[|a| - 1 - (k - |b|)];
      }
    }
  }

  /** swap_bytes: the first `size` bytes of `p` are reversed in place with two indices
      moving towards each other; the rest of the buffer is untouched. */
  method SwapBytes(p: array<bv8>, size: nat)
    requires size <= p.Length
    modifies p
    ensures p[..size] == Reverse(old(p[..size]))
    ensures p[size..] == old(p[size..])
  {
    var n := size / 2;
    var i := 0;
    while i < n
      invariant 0 <= i <= n
      invariant forall k :: 0 <= k < i ==> p[k] == old(p[size - 1 - k]) && p[size - 1 - k] == old(p[k])
      invariant forall k :: i <= k < size - i ==> p[k] == old(p[k])
      invariant forall k :: size <= k < p.Length ==> p[k] == old(p[k])
    {
      var j := size - 1 - i;
      p[i], p[j] := p[j], p[i];
      i := i + 1;
    }
  }

  // ---------------------------------------------------------------------------------------
  // strlcpy / strlcat

  /** The characters of a C string: no NUL inside. */
  predicate CString(s: string) { forall k :: 0 <= k < |s| ==> s[k] != '\0' }

  /** strlcpy: copies min(|src|, size - 1) characters and a terminating NUL when size >= 1,
      writes nothing when size == 0, and returns the full length of `src`. */
  method Strlcpy(dst: array<char>, src: string, size: nat) returns (r: nat)
    requires CString(src) && size <= dst.Length
    modifies dst
    ensures r == |src|
    ensures size == 0 ==> dst[..] == old(dst[..])
    ensures size >= 1 ==>
      var n := Min(|src|, size - 1);
      dst[..n] == src[..n] && dst[n] == '\0' && dst[n + 1..] == old(dst[n + 1..])
  {
    var s := 0;   // the source cursor
    var d := 0;   // the destination cursor
    while s < |src|
      invariant s <= |src| && d == Min(s, if size == 0 then 0 else size - 1)
      invariant dst[..d] == src[..d]
      invariant dst[d..] == old(dst[d..])
    {
      if size >= 1 && d < size - 1 {
        dst[d] := src[s];
        d := d + 1;
      }
      s := s + 1;
    }
    if size >= 1 {
      dst[d] := '\0';
    }
    r := s;
  }

  /** Where the string already in a buffer of `size` bytes ends: its first NUL, or `size`
      when there is none within the buffer. */
  function DstLen(buf: seq<char>, size: nat): (d: nat)
    requires size <= |buf|
    ensures d <= size
    ensures forall k :: 0 <= k < d ==> buf[k] != '\0'
    ensures d < size ==> buf[d] == '\0'
  {
    if size == 0 then 0
    else if buf[size - 1] != '\0' && DstLen(buf, size - 1) == size - 1 then size
    else DstLen(buf, size - 1)
  }

  /** How many characters of `src` fit after `d` characters in a buffer of `size` bytes. */
  function Appended(d: nat, size: nat, slen: nat): nat {
    if d < size then Min(slen, size - 1 - d) else 0
  }

  /** What strlcat returns as written: the final length of the string in the buffer plus
      the length of `src`. */
  function StrlcatReturn(d: nat, size: nat, slen: nat): nat {
    d + Appended(d, size, slen) + slen
  }

  /** The contract of the BSD strlcat: the length of the string it tried to create. */
  function StrlcatBsdReturn(d: nat, size: nat, slen: nat): nat {
    d + slen
  }

  /** The shared copy loop of strlcat: appends `src` after the `d` characters already in the
      buffer, staying within `size` bytes, and NUL-terminates when there is room. */
  method AppendBounded(dst: array<char>, d: nat, src: string, size: nat) returns (end: nat)
    requires size <= dst.Length && d <= size
    modifies dst
    ensures end == d + Appended(d, size, |src|)
    ensures dst[..d] == old(dst[..d])
    ensures dst[d..end] == src[..end - d]
    ensures d < size ==> dst[end] == '\0' && dst[end + 1..] == old(dst[end + 1..])
    ensures d == size ==> dst[..] == old(dst[..])
  {
    var s := 0;
    end := d;
    while s < |src|
      invariant s <= |src|
      invariant end == d + (if d < size then Min(s, size - 1 - d) else 0)
      invariant dst[..d] == old(dst[..d])
      invariant dst[d..end] == src[..end - d]
      invariant dst[end..] == old(dst[end..])
    {
      if end + 1 < size {
        dst[end] := src[s];
        end := end + 1;
      }
      s := s + 1;
    }
    if end < size {
      dst[end] := '\0';
    }
  }

  /** strlcat as written: finds the end of the string in `dst` (looking at no more than
      `size` bytes), appends what fits, and returns the final length plus the length of
      `src` -- not the initial length plus the length of `src` that the BSD function returns. */
  method Strlcat(dst: array<char>, src: string, size: nat) returns (r: nat)
    requires CString(src) && size <= dst.Length
    modifies dst
    ensures var d := DstLen(old(dst[..]), size);
      && r == StrlcatReturn(d, size, |src|)
      && dst[..d] == old(dst[..d])
      && dst[d..d + Appended(d, size, |src|)] == src[..Appended(d, size, |src|)]
      && (d < size ==> dst[d + Appended(d, size, |src|)] == '\0')
      && (d < size ==> dst[d + Appended(d, size, |src|) + 1..] == old(dst[d + Appended(d, size, |src|) + 1..]))
    ensures forall k :: size <= k < dst.Length ==> dst[k] == old(dst[k])
  {
    var d := ScanDst(dst, size);
    var end := AppendBounded(dst, d, src, size);
    r := end + |src|;
  }

  /** strlcat with the return value of the BSD contract: the initial length plus the length
      of `src`, so that `r >= size` says exactly that the result was truncated. */
  method StrlcatBsd(dst: array<char>, src: string, size: nat) returns (r: nat)
    requires CString(src) && size <= dst.Length
    modifies dst
    ensures var d := DstLen(old(dst[..]), size);
      && r == StrlcatBsdReturn(d, size, |src|)
      && dst[..d] == old(dst[..d])
      && dst[d..d + Appended(d, size, |src|)] == src[..Appended(d, size, |src|)]
      && (d < size ==> dst[d + Appended(d, size, |src|)] == '\0')
      && (d < size ==> dst[d + Appended(d, size, |src|) + 1..] == old(dst[d + Appended(d, size, |src|) + 1..]))
    ensures forall k :: size <= k < dst.Length ==> dst[k] == old(dst[k])
  {
    var d := ScanDst(dst, size);
    var end := AppendBounded(dst, d, src, size);
    r := d + |src|;
  }

  /** The scan `while (dst <= dst1 && *dst != 0) dst++`. */
  method ScanDst(dst: array<char>, size: nat) returns (d: nat)
    requires size <= dst.Length
    ensures d == DstLen(dst[..], size)
  {
    d := 0;
    while d < size && dst[d] != '\0'
      invariant d <= size
      invariant forall k :: 0 <= k < d ==> dst[k] != '\0'
    {
      d := d + 1;
    }
    DstLenIs(dst[..], size, d);
  }

  lemma {:induction false} DstLenIs(buf: seq<char>, size: nat, d: nat)
    requires d <= size <= |buf|
    requires forall k :: 0 <= k < d ==> buf[k] != '\0'
    requires d < size ==> buf[d] == '\0'
    ensures DstLen(buf, size) == d
    decreases size
  {
    if size > 0 {
      if d == size {
        DstLenIs(buf, size - 1, size - 1);
      } else {
        DstLenIs(buf, size - 1, d);
      }
    }
  }

  /** With the corrected return value the usual truncation test is exact: the result is
      at least `size` exactly when not all of `src` was appended. */
  lemma StrlcatBsdDetectsTruncation(d: nat, size: nat, slen: nat)
    requires d <= size
    ensures StrlcatBsdReturn(d, size, slen) >= size <==> Appended(d, size, slen) < slen || d == size
  {
  }

  /** As written, appending "ab" to an empty 4-byte buffer stores all of "ab" yet returns 4,
      which a caller testing `r >= size` takes for truncation. */
  lemma StrlcatReportsFalseTruncation()
    ensures Appended(0, 4, 2) == 2
    ensures StrlcatReturn(0, 4, 2) == 4 >= 4
  {
  }

  // ---------------------------------------------------------------------------------------
  // make_cmd_from_args

  /** One argument as it appears on the command line: in double quotes, with '\' put before
      every '"' inside it; backslashes themselves are not doubled. */
  function Quote(arg: string): string {
    ['"'] + Escape(arg) + ['"']
  }

  function Escape(arg: string): string
    decreases |arg|
  {
    if arg == [] then []
    else (if arg[0] == '"' then ['\\', '"'] else [arg[0]]) + Escape(arg[1..])
  }

  /** The quoted arguments separated by single spaces. */
  function JoinArgs(args: seq<string>): string
    decreases |args|
  {
    if args == [] then []
    else if |args| == 1 then Quote(args[0])
    else Quote(args[0]) + [' '] + JoinArgs(args[1..])
  }

  /** The command line handed to CreateProcess, NUL-terminated. */
  function CommandLine(args: seq<string>): string {
    JoinArgs(args) + ['\0']
  }

  lemma {:induction false} JoinArgsSnoc(args: seq<string>, a: string)
    requires args != []
    ensures JoinArgs(args + [a]) == JoinArgs(args) + [' '] + Quote(a)
    decreases |args|
  {
    if |args| > 1 {
      assert (args + [a])[1..] == args[1..] + [a];
      JoinArgsSnoc(args[1..], a);
    } else {
      assert (args + [a])[1..] == [a];
    }
  }

  lemma EscapeAppend(a: string, c: char)
    ensures Escape(a + [c]) == Escape(a) + (if c == '"' then ['\\', '"'] else [c])
    decreases |a|
  {
    if a != [] {
      assert (a + [c])[1..] == a[1..] + [c];
      EscapeAppend(a[1..], c);
    }
  }

  /** The inner loop of make_cmd_from_args: one argument in quotes, each '"' escaped. */
  method AppendQuoted(cmd: string, p: string) returns (r: string)
    ensures r == cmd + Quote(p)
  {
    r := cmd + ['"'];
    var k := 0;
    while k < |p|
      invariant k <= |p|
      invariant r == cmd + ['"'] + Escape(p[..k])
    {
      if p[k] == '"' {
        r := r + ['\\'];
      }
      r := r + [p[k]];
      EscapeAppend(p[..k], p[k]);
      assert p[..k + 1] == p[..k] + [p[k]];
      k := k + 1;
    }
    assert p[..k] == p;
    r := r + ['"'];
  }

  /** make_cmd_from_args: appends character by character to a growing buffer. */
  method MakeCmdFromArgs(args: seq<string>) returns (cmd: string)
    requires forall i :: 0 <= i < |args| ==> CString(args[i])
    ensures cmd == CommandLine(args)
  {
    cmd := [];
    var i := 0;
    while i < |args|
      invariant i <= |args|
      invariant cmd == JoinArgs(args[..i])
      invariant i == 0 <==> cmd == []
    {
      var p := args[i];
      if |cmd| > 0 {
        cmd := cmd + [' '];
      }
      cmd := AppendQuoted(cmd, p);
      assert args[..i + 1] == args[..i] + [p];
      if i > 0 {
        JoinArgsSnoc(args[..i], p);
      }
      i := i + 1;
    }
    assert args[..i] == args;
    cmd := cmd + ['\0'];
  }

  // A reader of the command line, to state what the quoting preserves.

  /** Reads one quoted argument from just after its opening quote: `\"` stands for '"' and a
      bare '"' closes the argument. Yields the argument and how many characters it took,
      closing quote included. */
  function ReadQuoted(s: string): (r: Option<(string, nat)>)
    ensures r.Some? ==> 0 < r.value.1 <= |s|
    decreases |s|
  {
    if s == [] then None
    else if s[0] == '"' then Some(([], 1))
    else if s[0] == '\\' && |s| > 1 && s[1] == '"' then
      match ReadQuoted(s[2..])
      case None => None
      case Some(r) => Some((['"'] + r.0, r.1 + 2))
    else
      match ReadQuoted(s[1..])
      case None => None
      case Some(r) => Some(([s[0]] + r.0, r.1 + 1))
  }

  predicate NoBackslash(s: string) { forall k :: 0 <= k < |s| ==> s[k] != '\\' }

  /** An argument without backslashes reads back from its escaped form. */
  lemma {:induction false} ReadQuotedEscape(arg: string, rest: string)
    requires NoBackslash(arg)
    ensures ReadQuoted(Escape(arg) + ['"'] + rest) == Some((arg, |Escape(arg)| + 1))
    decreases |arg|
  {
    var s := Escape(arg) + ['"'] + rest;
    if arg == [] {
      assert s[0] == '"';
    } else {
      var t := Escape(arg[1..]) + ['"'] + rest;
      ReadQuotedEscape(arg[1..], rest);
      if arg[0] == '"' {
        assert s == ['\\', '"'] + t;
        assert s[2..] == t;
      } else {
        assert s == [arg[0]] + t;
        assert s[1..] == t;
      }
      assert [arg[0]] + arg[1..] == arg;
    }
  }

  /** Splits a command line back into its arguments: quoted arguments separated by single
      spaces, ended by NUL. */
  function SplitArgs(s: string): Option<seq<string>>
    decreases |s|
  {
    if s == ['\0'] then Some([])
    else if s != [] && s[0] == '"' then
      match ReadQuoted(s[1..])
      case None => None
      case Some(r) =>
        var n := 1 + r.1;
        if n < |s| && s[n] == ' ' then
          match SplitArgs(s[n + 1..])
          case None => None
          case Some(more) => if more == [] then None else Some([r.0] + more)
        else if s[n..] == ['\0'] then Some([r.0])
        else None
    else None
  }

  /** Reading the first quoted argument of a line. */
  lemma SplitFirst(a: string, tail: string)
    requires NoBackslash(a)
    ensures SplitArgs(Quote(a) + tail) == SplitRest(a, tail)
  {
    var s := Quote(a) + tail;
    assert s == ['"'] + (Escape(a) + ['"'] + tail);
    assert s[1..] == Escape(a) + ['"'] + tail;
    ReadQuotedEscape(a, tail);
    var n := |Escape(a)| + 2;
    assert s[n..] == tail;
    SplitArgsAt(s, a, n);
  }

  /** What follows a first argument `a`: a space and more arguments, or the final NUL. */
  function SplitRest(a: string, tail: string): Option<seq<string>> {
    if tail != [] && tail[0] == ' ' then
      match SplitArgs(tail[1..])
      case None => None
      case Some(more) => if more == [] then None else Some([a] + more)
    else if tail == ['\0'] then Some([a])
    else None
  }

  lemma SplitArgsAt(s: string, a: string, n: nat)
    requires 0 < n <= |s| && s[0] == '"' && ReadQuoted(s[1..]) == Some((a, n - 1))
    ensures SplitArgs(s) == SplitRest(a, s[n..])
  {
    assert s != ['\0'];
    if n < |s| {
      assert s[n..][0] == s[n];
      assert s[n..][1..] == s[n + 1..];
    }
  }

  lemma CommandLineCons(args: seq<string>)
    requires args != []
    ensures CommandLine(args)
         == Quote(args[0]) + (if |args| == 1 then ['\0'] else [' '] + CommandLine(args[1..]))
  {
  }

  /** Arguments free of backslashes come back unchanged from the command line built for them. */
  lemma {:induction false} SplitCommandLine(args: seq<string>)
    requires forall i :: 0 <= i < |args| ==> NoBackslash(args[i])
    ensures SplitArgs(CommandLine(args)) == Some(args)
    decreases |args|
  {
    if args == [] {
      assert CommandLine(args) == ['\0'];
    } else if |args| == 1 {
      SplitOne(args);
    } else {
      NoBackslashTail(args);
      SplitCommandLine(args[1..]);
      SplitMore(args);
    }
  }

  lemma SplitOne(args: seq<string>)
    requires |args| == 1 && NoBackslash(args[0])
    ensures SplitArgs(CommandLine(args)) == Some(args)
  {
    CommandLineCons(args);
    SplitFirst(args[0], ['\0']);
    assert args == [args[0]];
  }

  lemma SplitMore(args: seq<string>)
    requires |args| > 1 && NoBackslash(args[0])
    requires SplitArgs(CommandLine(args[1..])) == Some(args[1..])
    ensures SplitArgs(CommandLine(args)) == Some(args)
  {
    CommandLineCons(args);
    SplitCons(args[0], args[1..]);
    assert [args[0]] + args[1..] == args;
  }

  lemma NoBackslashTail(args: seq<string>)
    requires args != [] && forall i :: 0 <= i < |args| ==> NoBackslash(args[i])
    ensures NoBackslash(args[0]) && forall i :: 0 <= i < |args[1..]| ==> NoBackslash(args[1..][i])
  {
    forall i | 0 <= i < |args[1..]| ensures NoBackslash(args[1..][i]) {
      assert args[1..][i] == args[i + 1];
    }
  }

  /** One more argument in front of a line that reads back. */
  lemma SplitCons(a: string, more: seq<string>)
    requires NoBackslash(a) && more != []
    requires SplitArgs(CommandLine(more)) == Some(more)
    ensures SplitArgs(Quote(a) + ([' '] + CommandLine(more))) == Some([a] + more)
  {
    var tail := [' '] + CommandLine(more);
    SplitFirst(a, tail);
    assert tail[1..] == CommandLine(more);
    SplitRestMore(a, tail, more);
  }

  lemma SplitRestMore(a: string, tail: string, more: seq<string>)
    requires tail != [] && tail[0] == ' ' && more != []
    requires SplitArgs(tail[1..]) == Some(more)
    ensures SplitRest(a, tail) == Some([a] + more)
  {
  }

  /** The agent's quoting is not read back for an argument ending in '\\': `a\\` becomes
      `"a\\"`, whose `\\"` reads as a quote character and leaves the argument unterminated. */
  lemma TrailingBackslashLost()
    ensures SplitArgs(CommandLine(["a\\"])) == None
  {
    var s := CommandLine(["a\\"]);
    assert Escape("a\\") == "a\\" by {
      assert Escape("a\\"[1..]) == Escape("\\") == "\\";
    }
    assert s == ['"', 'a', '\\', '"', '\0'];
    var t := s[1..];
    assert t[1..] == ['\\', '"', '\0'] && t[1..][2..] == ['\0'] && t[1..][2..][1..] == [];
    assert ReadQuoted(['\0']) == None;
    assert ReadQuoted(t) == None;
  }
}
