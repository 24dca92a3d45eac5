/** canonicalize_file_name as mdep.c builds it for VxWorks (where the C library has none): a
    single left-to-right pass over the path that writes into a PATH_MAX buffer, turning '\'
    into '/', collapsing separator runs, dropping "/./" segments and resolving "/.." against
    what has been written so far. A leading "." or ".." is resolved against the working
    directory, which is a parameter here. */
module MdepPath {
  import MdepBytes

  /** Size of the VxWorks path buffer (the header value is not part of this model). */
  const PATH_MAX: nat := 1024

  /** `path[k]` of the C string: the terminating NUL past the end. */
  function At(path: string, k: nat): (c: char)
    ensures k >= |path| ==> c == '\0'
  {
    if k < |path| then path[k] else '\0'
  }

  predicate IsSep(c: char) { c == '/' || c == '\\' }

  /** The two trimming loops used for "..": drop the last component and the '/' before it. */
  function DropComponent(b: string): (r: string)
    ensures r <= b
    ensures |r| < |b| || b == []
    ensures r == [] || b[|r|] == '/'
  {
    if |b| == 0 then []
    else if b[|b| - 1] == '/' then b[..|b| - 1]
    else DropComponent(b[..|b| - 1])
  }

  /** Where the scan starts and what the buffer holds then: the working directory for a
      leading "." (with "/" becoming empty), its parent for a leading "..", nothing otherwise. */
  function Start(path: string, cwd: string): (s: (nat, string))
    requires |cwd| < PATH_MAX
    ensures s.0 <= |path| && |s.1| < PATH_MAX
  {
    if At(path, 0) == '.' && (IsSep(At(path, 1)) || At(path, 1) == '\0') then
      (1, if cwd == "/" then [] else cwd)
    else if At(path, 0) == '.' && At(path, 1) == '.' && (IsSep(At(path, 2)) || At(path, 2) == '\0') then
      (2, DropComponent(cwd))
    else
      (0, [])
  }

  /** The main loop from input position `i` with `b` written so far. */
  function Scan(path: string, i: nat, b: string): (r: string)
    requires i <= |path| && |b| < PATH_MAX
    ensures |r| < PATH_MAX
    decreases |path| - i
  {
    if At(path, i) == '\0' || |b| >= PATH_MAX - 1 then b
    else
      var ch := if path[i] == '\\' then '/' else path[i];
      if ch == '/' && IsSep(At(path, i + 1)) then Scan(path, i + 1, b)
      else if ch == '/' && At(path, i + 1) == '.' && At(path, i + 2) == '\0' then b
      else if ch == '/' && At(path, i + 1) == '.' && IsSep(At(path, i + 2)) then Scan(path, i + 2, b)
      else if ch == '/' && At(path, i + 1) == '.' && (|b| == 0 || b[0] == '/') && At(path, i + 2) == '.'
        && (IsSep(At(path, i + 3)) || At(path, i + 3) == '\0') then
        Scan(path, i + 3, DropComponent(b))
      else Scan(path, i + 1, b + [ch])
  }

  /** The whole normalisation: a non-empty path that reduces to nothing becomes "/". */
  function Canonical(path: string, cwd: string): (r: string)
    requires |cwd| < PATH_MAX
    ensures |r| < PATH_MAX
    ensures At(path, 0) != '\0' ==> r != []
  {
    var s := Start(path, cwd);
    var b := Scan(path, s.0, s.1);
    if |b| == 0 && At(path, 0) != '\0' then "/" else b
  }

  /** canonicalize_file_name: `getcwd` is replaced by the `cwd` parameter, which (as getcwd
      guarantees for the buffer it is given) is a C string shorter than PATH_MAX. */
  method Canonicalize(path: string, cwd: string) returns (r: string)
    requires |cwd| < PATH_MAX && MdepBytes.CString(cwd)
    ensures r == Canonical(path, cwd)
  {
    var buf := new char[PATH_MAX];
    var i: nat := 0;
    var j: nat := 0;
    if At(path, 0) == '.' && (IsSep(At(path, 1)) || At(path, 1) == '\0') {
      GetCwd(buf, cwd);
      j := |cwd|;
      if j == 1 && buf[0] == '/' {
        j := 0;
      }
      i := 1;
    } else if At(path, 0) == '.' && At(path, 1) == '.' && (IsSep(At(path, 2)) || At(path, 2) == '\0') {
      GetCwd(buf, cwd);
      j := |cwd|;
      j := TrimComponent(buf, j);
      i := 2;
    }
    assert (i, buf[..j]) == Start(path, cwd);
    j := ScanLoop(buf, path, i, j);
    if j == 0 && At(path, 0) != '\0' {
      buf[j] := '/';
      j := j + 1;
    }
    buf[j] := '\0';
    r := buf[..j];
  }

  /** The main `while` loop of canonicalize_file_name, from position `i` with `j` characters
      already in the buffer. */
  method ScanLoop(buf: array<char>, path: string, i0: nat, j0: nat) returns (j: nat)
    requires buf.Length == PATH_MAX && i0 <= |path| && j0 < PATH_MAX
    modifies buf
    ensures j < PATH_MAX && buf[..j] == Scan(path, i0, old(buf[..j0]))
  {
    var i := i0;
    j := j0;
    while At(path, i) != '\0' && j < PATH_MAX - 1
      invariant i <= |path| && j < PATH_MAX
      invariant Scan(path, i, buf[..j]) == Scan(path, i0, old(buf[..j0]))
      decreases |path| - i
    {
      var ch := path[i];
      if ch == '\\' {
        ch := '/';
      }
      if ch == '/' {
        if IsSep(At(path, i + 1)) {
          i := i + 1;
          continue;
        }
        if At(path, i + 1) == '.' {
          if At(path, i + 2) == '\0' {
            break;
          }
          if IsSep(At(path, i + 2)) {
            i := i + 2;
            continue;
          }
          if (j == 0 || buf[0] == '/') && At(path, i + 2) == '.' {
            if IsSep(At(path, i + 3)) || At(path, i + 3) == '\0' {
              j := TrimComponent(buf, j);
              i := i + 3;
              continue;
            }
          }
        }
      }
      ghost var written := buf[..j];
      buf[j] := ch;
      assert buf[..j + 1] == written + [ch];
      j := j + 1;
      i := i + 1;
    }
  }

  /** getcwd(buf, sizeof(buf)): the working directory followed by its NUL. */
  method GetCwd(buf: array<char>, cwd: string)
    requires buf.Length == PATH_MAX && |cwd| < PATH_MAX
    modifies buf
    ensures buf[..|cwd|] == cwd && buf[|cwd|] == '\0'
  {
    var k := 0;
    while k < |cwd|
      invariant k <= |cwd| && buf[..k] == cwd[..k]
    {
      buf[k] := cwd[k];
      k := k + 1;
    }
    buf[|cwd|] := '\0';
  }

  /** The two loops that back `j` up over the last component and its '/'. */
  method TrimComponent(buf: array<char>, j0: nat) returns (j: nat)
    requires j0 <= buf.Length
    ensures j <= j0 && buf[..j] == DropComponent(buf[..j0])
  {
    j := j0;
    while j > 0 && buf[j - 1] != '/'
      invariant j <= j0
      invariant DropComponent(buf[..j]) == DropComponent(buf[..j0])
    {
      assert buf[..j][..j - 1] == buf[..j - 1];
      j := j - 1;
    }
    if j > 0 && buf[j - 1] == '/' {
      assert buf[..j][..j - 1] == buf[..j - 1];
      j := j - 1;
    } else {
      assert j == 0;
    }
  }

  predicate NoBackslash(s: string) {
    forall k :: 0 <= k < |s| ==> s[k] != '\\'
  }

  predicate NoDoubleSlash(s: string) {
    forall k :: 0 <= k < |s| - 1 ==> !(s[k] == '/' && s[k + 1] == '/')
  }

  /** The scan only ever writes '/' where the path has '\\'. */
  lemma {:induction false} ScanNoBackslash(path: string, i: nat, b: string)
    requires i <= |path| && |b| < PATH_MAX && NoBackslash(b)
    ensures NoBackslash(Scan(path, i, b))
    decreases |path| - i
  {
    if At(path, i) == '\0' || |b| >= PATH_MAX - 1 {
    } else {
      var ch := if path[i] == '\\' then '/' else path[i];
      if ch == '/' && IsSep(At(path, i + 1)) {
        ScanNoBackslash(path, i + 1, b);
      } else if ch == '/' && At(path, i + 1) == '.' && At(path, i + 2) == '\0' {
      } else if ch == '/' && At(path, i + 1) == '.' && IsSep(At(path, i + 2)) {
        ScanNoBackslash(path, i + 2, b);
      } else if ch == '/' && At(path, i + 1) == '.' && (|b| == 0 || b[0] == '/') && At(path, i + 2) == '.'
        && (IsSep(At(path, i + 3)) || At(path, i + 3) == '\0') {
        ScanNoBackslash(path, i + 3, DropComponent(b));
      } else {
        ScanNoBackslash(path, i + 1, b + [ch]);
      }
    }
  }

  /** Separators come out as '/' only: with a working directory free of '\\', so is the result. */
  lemma CanonicalNoBackslash(path: string, cwd: string)
    requires |cwd| < PATH_MAX && NoBackslash(cwd)
    ensures NoBackslash(Canonical(path, cwd))
  {
    var s := Start(path, cwd);
    ScanNoBackslash(path, s.0, s.1);
  }

  /** What the scan keeps true between steps: no "//" written, and a written '/' is never
      followed by a separator still to be read. */
  predicate SlashOk(path: string, i: nat, b: string) {
    NoDoubleSlash(b) && (|b| > 0 && b[|b| - 1] == '/' ==> !IsSep(At(path, i)))
  }

  /** Dropping a component never leaves a trailing '/'. */
  lemma DropComponentClean(b: string)
    requires NoDoubleSlash(b)
    ensures NoDoubleSlash(DropComponent(b))
    ensures DropComponent(b) == [] || DropComponent(b)[|DropComponent(b)| - 1] != '/'
  {
    var r := DropComponent(b);
    if r != [] {
      assert b[|r|] == '/' && b[|r| - 1] == r[|r| - 1];
    }
  }

  lemma {:induction false} ScanNoDoubleSlash(path: string, i: nat, b: string)
    requires i <= |path| && |b| < PATH_MAX && SlashOk(path, i, b)
    ensures NoDoubleSlash(Scan(path, i, b))
    decreases |path| - i
  {
    if At(path, i) == '\0' || |b| >= PATH_MAX - 1 {
    } else {
      var ch := if path[i] == '\\' then '/' else path[i];
      if ch == '/' && IsSep(At(path, i + 1)) {
        ScanNoDoubleSlash(path, i + 1, b);
      } else if ch == '/' && At(path, i + 1) == '.' && At(path, i + 2) == '\0' {
      } else if ch == '/' && At(path, i + 1) == '.' && IsSep(At(path, i + 2)) {
        ScanNoDoubleSlash(path, i + 2, b);
      } else if ch == '/' && At(path, i + 1) == '.' && (|b| == 0 || b[0] == '/') && At(path, i + 2) == '.'
        && (IsSep(At(path, i + 3)) || At(path, i + 3) == '\0') {
        DropComponentClean(b);
        ScanNoDoubleSlash(path, i + 3, DropComponent(b));
      } else {
        var b2 := b + [ch];
        assert NoDoubleSlash(b2) by {
          if ch == '/' && |b| > 0 {
            assert b[|b| - 1] != '/';
          }
        }
        ScanNoDoubleSlash(path, i + 1, b2);
      }
    }
  }

  /** A working directory as getcwd reports it: no "//" and no trailing '/' except for the root. */
  predicate CleanDir(cwd: string) {
    NoDoubleSlash(cwd) && (cwd == "/" || cwd == [] || cwd[|cwd| - 1] != '/')
  }

  /** Runs of separators collapse: the result never holds "//". */
  lemma CanonicalNoDoubleSlash(path: string, cwd: string)
    requires |cwd| < PATH_MAX && CleanDir(cwd)
    ensures NoDoubleSlash(Canonical(path, cwd))
  {
    var s := Start(path, cwd);
    DropComponentClean(cwd);
    ScanNoDoubleSlash(path, s.0, s.1);
  }

  /** A character of a path component: neither the end of the string nor a separator. */
  predicate InName(c: char) { c != '\0' && !IsSep(c) }

  predicate Absolute(s: string) { |s| > 0 && s[0] == '/' }

  predicate EndsSlash(s: string) { |s| > 0 && s[|s| - 1] == '/' }

  predicate EndsDot(s: string) { |s| >= 2 && s[|s| - 2] == '/' && s[|s| - 1] == '.' }

  predicate EndsDotDot(s: string) {
    |s| >= 3 && s[|s| - 3] == '/' && s[|s| - 2] == '.' && s[|s| - 1] == '.'
  }

  /** No "/./" anywhere. */
  predicate NoDotSegment(s: string) {
    forall k :: 0 <= k < |s| - 2 ==> !(s[k] == '/' && s[k + 1] == '.' && s[k + 2] == '/')
  }

  /** No "/../" anywhere. */
  predicate NoDotDotSegment(s: string) {
    forall k :: 0 <= k < |s| - 3 ==> !(s[k] == '/' && s[k + 1] == '.' && s[k + 2] == '.' && s[k + 3] == '/')
  }

  /** Free of dot segments: no "/./", no trailing "/.", and, when absolute, no ".."
      component (neither "/../" nor a trailing "/.."). */
  predicate DotFree(s: string) {
    && NoDotSegment(s) && !EndsDot(s)
    && (Absolute(s) ==> NoDotDotSegment(s) && !EndsDotDot(s))
  }

  /** What the scan keeps true between steps about dot segments: none is complete in `b`,
      and a "/", "/." or "/.." that `b` ends with starts a name the input goes on with. */
  predicate DotOk(path: string, i: nat, b: string) {
    && SlashOk(path, i, b)
    && NoDotSegment(b) && (Absolute(b) ==> NoDotDotSegment(b))
    && (EndsSlash(b) && At(path, i) == '.' ==> InName(At(path, i + 1)))
    && (EndsSlash(b) && Absolute(b) && At(path, i) == '.' && At(path, i + 1) == '.' ==> InName(At(path, i + 2)))
    && (EndsDot(b) ==> InName(At(path, i)))
    && (EndsDot(b) && Absolute(b) && At(path, i) == '.' ==> InName(At(path, i + 1)))
    && (Absolute(b) && EndsDotDot(b) ==> InName(At(path, i)))
  }

  /** At a separator nothing is pending: what is written is free of dot segments. */
  lemma DotOkAtSep(path: string, i: nat, b: string)
    requires DotOk(path, i, b) && IsSep(At(path, i))
    ensures NoDoubleSlash(b) && DotFree(b) && !EndsSlash(b)
  {
  }

  /** A buffer with nothing pending is a valid scan state at any position. */
  lemma SettledDotOk(path: string, i: nat, b: string)
    requires NoDoubleSlash(b) && DotFree(b) && !EndsSlash(b)
    ensures DotOk(path, i, b)
  {
  }

  /** The part of a buffer before one of its '/' is as free of dot segments as the buffer. */
  lemma PrefixDotFree(b: string, n: nat)
    requires n < |b| && b[n] == '/' && DotFree(b)
    ensures DotFree(b[..n])
  {
    var r := b[..n];
    assert n >= 2 ==> !(b[n - 2] == '/' && b[n - 1] == '.');
    assert Absolute(r) ==> Absolute(b);
    assert Absolute(b) && n >= 3 ==> !(b[n - 3] == '/' && b[n - 2] == '.' && b[n - 1] == '.');
  }

  /** Dropping a component keeps a buffer free of dot segments. */
  lemma DropDotFree(b: string)
    requires NoDoubleSlash(b) && DotFree(b) && !EndsSlash(b)
    ensures NoDoubleSlash(DropComponent(b)) && DotFree(DropComponent(b)) && !EndsSlash(DropComponent(b))
  {
    var r := DropComponent(b);
    DropComponentClean(b);
    if r != [] {
      PrefixDotFree(b, |r|);
    }
  }

  /** Writing a '/' that the scan keeps. */
  lemma WriteSlashDotOk(path: string, i: nat, b: string)
    requires i < |path| && IsSep(path[i]) && DotOk(path, i, b)
    requires !IsSep(At(path, i + 1))
    requires At(path, i + 1) == '.' ==> InName(At(path, i + 2))
    requires At(path, i + 1) == '.' && (|b| == 0 || b[0] == '/') && At(path, i + 2) == '.' ==>
               InName(At(path, i + 3))
    ensures DotOk(path, i + 1, b + ['/'])
  {
    var b2 := b + ['/'];
    assert !EndsDot(b) && !(Absolute(b) && EndsDotDot(b)) && !EndsSlash(b);
    assert NoDoubleSlash(b2) by {
      if |b| > 0 {
        assert b[|b| - 1] != '/';
      }
    }
    assert NoDotSegment(b2) by {
      if |b| >= 2 {
        assert !(b2[|b| - 2] == '/' && b2[|b| - 1] == '.');
      }
    }
    if Absolute(b2) && |b| > 0 {
      assert Absolute(b);
      if |b| >= 3 {
        assert !(b2[|b| - 3] == '/' && b2[|b| - 2] == '.' && b2[|b| - 1] == '.');
      }
    }
  }

  /** Writing a character of a name. */
  lemma WriteNameDotOk(path: string, i: nat, b: string)
    requires i < |path| && InName(path[i]) && DotOk(path, i, b)
    ensures DotOk(path, i + 1, b + [path[i]])
  {
    var b2 := b + [path[i]];
    assert b2[|b|] == path[i] && At(path, i) == path[i];
    if |b| > 0 {
      assert b2[0] == b[0];
    }
    if EndsDot(b2) {
      assert EndsSlash(b);
    }
    if EndsDotDot(b2) {
      assert EndsDot(b);
    }
  }

  lemma {:induction false} ScanDotFree(path: string, i: nat, b: string)
    requires i <= |path| && |b| < PATH_MAX && DotOk(path, i, b)
    ensures |Scan(path, i, b)| < PATH_MAX - 1 ==> DotFree(Scan(path, i, b))
    decreases |path| - i
  {
    if At(path, i) == '\0' || |b| >= PATH_MAX - 1 {
    } else {
      var ch := if path[i] == '\\' then '/' else path[i];
      if ch == '/' && IsSep(At(path, i + 1)) {
        DotOkAtSep(path, i, b);
        SettledDotOk(path, i + 1, b);
        ScanDotFree(path, i + 1, b);
      } else if ch == '/' && At(path, i + 1) == '.' && At(path, i + 2) == '\0' {
        DotOkAtSep(path, i, b);
      } else if ch == '/' && At(path, i + 1) == '.' && IsSep(At(path, i + 2)) {
        DotOkAtSep(path, i, b);
        SettledDotOk(path, i + 2, b);
        ScanDotFree(path, i + 2, b);
      } else if ch == '/' && At(path, i + 1) == '.' && (|b| == 0 || b[0] == '/') && At(path, i + 2) == '.'
        && (IsSep(At(path, i + 3)) || At(path, i + 3) == '\0') {
        DotOkAtSep(path, i, b);
        DropDotFree(b);
        SettledDotOk(path, i + 3, DropComponent(b));
        ScanDotFree(path, i + 3, DropComponent(b));
      } else if ch == '/' {
        WriteSlashDotOk(path, i, b);
        ScanDotFree(path, i + 1, b + [ch]);
      } else {
        WriteNameDotOk(path, i, b);
        ScanDotFree(path, i + 1, b + [ch]);
      }
    }
  }

  /** Dot segments are resolved: unless the result filled the buffer, it holds no "/./",
      does not end in "/.", and, when it is absolute, holds no ".." component -- given a
      working directory of the kind getcwd reports, itself free of dot segments. */
  lemma CanonicalDotFree(path: string, cwd: string)
    requires |cwd| < PATH_MAX && CleanDir(cwd) && DotFree(cwd)
    requires |Canonical(path, cwd)| < PATH_MAX - 1
    ensures NoDotSegment(Canonical(path, cwd))
    ensures !EndsDot(Canonical(path, cwd))
    ensures Absolute(Canonical(path, cwd)) ==>
              NoDotDotSegment(Canonical(path, cwd)) && !EndsDotDot(Canonical(path, cwd))
  {
    var s := Start(path, cwd);
    if cwd == "/" {
      assert DropComponent(cwd) == [];
    } else {
      DropDotFree(cwd);
    }
    SettledDotOk(path, s.0, s.1);
    ScanDotFree(path, s.0, s.1);
  }

  /** A path already in normal form: short enough, not starting with '.', and free of '\\',
      NUL, "//" and "/.". */
  predicate Normal(path: string) {
    && |path| < PATH_MAX
    && At(path, 0) != '.'
    && (forall k :: 0 <= k < |path| ==> path[k] != '\\' && path[k] != '\0')
    && (forall k :: 0 <= k < |path| - 1 ==> path[k] == '/' ==> path[k + 1] != '/' && path[k + 1] != '.')
  }

  lemma {:induction false} ScanNormal(path: string, i: nat)
    requires Normal(path) && i <= |path|
    ensures Scan(path, i, path[..i]) == path
    decreases |path| - i
  {
    if i < |path| {
      assert path[..i] + [path[i]] == path[..i + 1];
      ScanNormal(path, i + 1);
    } else {
      assert path[..i] == path;
    }
  }

  /** Normalisation leaves a path that is already normal unchanged. */
  lemma CanonicalNormal(path: string, cwd: string)
    requires |cwd| < PATH_MAX && Normal(path)
    ensures Canonical(path, cwd) == path
  {
    ScanNormal(path, 0);
  }

  /** "/.." pops a component of an absolute result. */
  lemma DotDotPops()
    ensures Canonical("/a/../b", "/") == "/b"
    ensures Canonical("/..", "/") == "/"
  {
  }

  /** Separators are unified and collapsed, "/./" is dropped and a trailing "/." ends the scan. */
  lemma SeparatorExamples()
    ensures Canonical("a\\\\/b", "/") == "a/b"
    ensures Canonical("/./b", "/") == "/b"
    ensures Canonical("b/.", "/") == "b"
  {
  }

  /** "/.." is kept as text in a relative result; "." and ".." start from the working directory. */
  lemma RelativeExamples()
    ensures Canonical("a/../b", "/") == "a/../b"
    ensures Canonical("./x", "/home/u") == "/home/u/x"
    ensures Canonical("../x", "/home/u") == "/home/x"
    ensures Canonical(".", "/") == "/"
  {
  }
}
