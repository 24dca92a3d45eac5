/** Symbol IDs of the agent's ELF/DWARF symbol reader: `symbol2id` writes the fields of a
    symbol into the 256-byte `tmp_buf` ("@P..." for a pseudo-symbol built on a base symbol,
    "@S..." otherwise) and `id2symbol` reads them back with a cursor, resolving the context,
    the ELF file and its objects through lookups that are parameters here. */
module AgentSymbolId {
  import opened Base
  import opened Digits
  import MdepBytes

  const TMP_BUF_SIZE: nat := 256

  /** The frame numbers of the stack-trace service (the header defining them is not part of
      this model). */
  const STACK_NO_FRAME: int := -1
  const STACK_TOP_FRAME: int := -2

  /** What `tmp_app_char` keeps of the text it was asked to append: at most 255 characters. */
  function Clip(s: string): (r: string)
    ensures |r| <= TMP_BUF_SIZE - 1
    ensures |s| <= TMP_BUF_SIZE - 1 ==> r == s
  {
    if |s| <= TMP_BUF_SIZE - 1 then s else s[..TMP_BUF_SIZE - 1]
  }

  /** The identifying fields of a symbol. A pseudo-symbol (`sym->base != NULL`) has a class,
      an index, a length and a base; every other symbol is identified by its file (device,
      inode, modification time; all zero without a file), its DWARF object, its implicit
      `this` variable and symbol table (0 when absent), its frame, index, dimension,
      cardinal and the ID of its context. */
  datatype AgentSym =
    | PseudoSym(symClass: int, index: nat, length: nat, base: AgentSym)
    | FileSym(symClass: int, dev: nat, ino: nat, mtime: int, objIndex: nat, varIndex: nat,
              tblIndex: nat, frame: int, index: nat, dimension: nat, cardinal: nat, ctxId: string)

  /** The C types of the fields: `int` class and frame, `unsigned` index, dimension, cardinal
      and table index, 64-bit device, inode, object IDs and lengths, `int64_t` mtime. */
  predicate WellFormed(s: AgentSym) {
    match s
    case PseudoSym(c, i, l, b) => IsI32(c) && IsU32(i) && IsU64(l) && WellFormed(b)
    case FileSym(c, dev, ino, mt, obj, v, tbl, fr, i, dim, card, ctx) =>
      IsI32(c) && IsU64(dev) && IsU64(ino) && IsI64(mt) && IsU64(obj) && IsU64(v) && IsU32(tbl)
      && IsI32(fr) && IsU32(i) && IsU32(dim) && IsU32(card) && MdepBytes.CString(ctx)
  }

  /** The frame `symbol2id` writes: STACK_TOP_FRAME is replaced by the context's top frame. */
  function IdFrame(frame: int, topFrame: int): int {
    if frame == STACK_TOP_FRAME then topFrame else frame
  }

  /** What `tmp_app_hex(sep, n)` appends: the separator and `n` in upper-case hex. */
  function HexPart(sep: char, n: nat): string {
    [sep] + Hex(n)
  }

  /** What `tmp_app_int(sep, n)` appends: the separator and the decimal text of `n`. */
  function IntPart(sep: char, n: int): string
    requires IsI32(n)
  {
    [sep] + TmpIntText(n)
  }

  /** What `tmp_app_str(sep, s)` appends: the separator and `s`. */
  function StrPart(sep: char, s: string): string {
    [sep] + s
  }

  /** The "@S" text before clipping: class and file, object references, then the rest. */
  function FileText(s: AgentSym, topFrame: int): string
    requires s.FileSym? && IsI32(IdFrame(s.frame, topFrame))
  {
    FileIdent(s) + FileRefs(s) + FileTail(s, topFrame)
  }

  function FileIdent(s: AgentSym): string
    requires s.FileSym?
  {
    "@" + HexPart('S', U64(s.symClass)) + HexPart('.', s.dev) + HexPart('.', s.ino)
      + HexPart('.', U64(s.mtime))
  }

  function FileRefs(s: AgentSym): string
    requires s.FileSym?
  {
    HexPart('.', s.objIndex) + HexPart('.', s.varIndex) + HexPart('.', s.tblIndex)
  }

  function FileTail(s: AgentSym, topFrame: int): string
    requires s.FileSym? && IsI32(IdFrame(s.frame, topFrame))
  {
    IntPart('.', IdFrame(s.frame, topFrame)) + HexPart('.', s.index) + HexPart('.', s.dimension)
      + HexPart('.', s.cardinal) + StrPart('.', s.ctxId)
  }

  /** The "@P" text before clipping, around the (already clipped) ID of the base. */
  function PseudoText(s: AgentSym, baseId: string): string
    requires s.PseudoSym?
  {
    "@" + HexPart('P', U64(s.symClass)) + HexPart('.', s.index) + HexPart('.', s.length)
      + StrPart('.', baseId)
  }

  /** symbol2id: the text, silently cut to 255 characters by tmp_buf. */
  function IdText(s: AgentSym, topFrame: int): (id: string)
    requires WellFormed(s) && IsI32(topFrame)
    ensures |id| <= TMP_BUF_SIZE - 1
  {
    match s
    case PseudoSym(_, _, _, b) => Clip(PseudoText(s, IdText(b, topFrame)))
    case FileSym(_, _, _, _, _, _, _, _, _, _, _, _) => Clip(FileText(s, topFrame))
  }

  /** An ID holds no NUL, so strlcpy and tmp_app_str see all of it. */
  lemma {:induction false} IdTextCString(s: AgentSym, topFrame: int)
    requires WellFormed(s) && IsI32(topFrame)
    ensures MdepBytes.CString(IdText(s, topFrame))
  {
    match s
    case PseudoSym(_, _, _, b) =>
      IdTextCString(b, topFrame);
      PseudoTextCString(s, IdText(b, topFrame));
    case FileSym(_, _, _, _, _, _, _, _, _, _, _, _) =>
      FileTextCString(s, topFrame);
  }

  lemma CStringCat(a: string, b: string)
    requires MdepBytes.CString(a) && MdepBytes.CString(b)
    ensures MdepBytes.CString(a + b)
  {
  }

  lemma HexCString(n: nat)
    ensures MdepBytes.CString(Hex(n))
  {
    var h := Hex(n);
    forall k | 0 <= k < |h|
      ensures h[k] != '\0'
    {
      assert IsHexDigit(h[k]);
    }
  }

  lemma IntCString(n: int)
    requires IsI32(n)
    ensures MdepBytes.CString(TmpIntText(n))
  {
    var m := if n < 0 then I32(-n) else n;
    CDigitsCString(m);
  }

  lemma {:induction false} CDigitsCString(m: int)
    ensures MdepBytes.CString(CDigits(m))
    decreases if m < 0 then -m else m
  {
    if CDiv(m, 10) != 0 {
      CDigitsCString(CDiv(m, 10));
    }
  }

  lemma HexPartCString(sep: char, n: nat)
    requires sep != '\0'
    ensures MdepBytes.CString(HexPart(sep, n))
  {
    HexCString(n);
    CStringCat([sep], Hex(n));
  }

  lemma FileTextCString(s: AgentSym, topFrame: int)
    requires s.FileSym? && IsI32(IdFrame(s.frame, topFrame)) && MdepBytes.CString(s.ctxId)
    ensures MdepBytes.CString(FileText(s, topFrame))
  {
    FileIdentCString(s);
    FileRefsCString(s);
    FileTailCString(s, topFrame);
    CStringCat(FileIdent(s), FileRefs(s));
    CStringCat(FileIdent(s) + FileRefs(s), FileTail(s, topFrame));
  }

  lemma FileIdentCString(s: AgentSym)
    requires s.FileSym?
    ensures MdepBytes.CString(FileIdent(s))
  {
    HexPartCString('S', U64(s.symClass));
    HexPartCString('.', s.dev);
    HexPartCString('.', s.ino);
    HexPartCString('.', U64(s.mtime));
  }

  lemma FileRefsCString(s: AgentSym)
    requires s.FileSym?
    ensures MdepBytes.CString(FileRefs(s))
  {
    HexPartCString('.', s.objIndex);
    HexPartCString('.', s.varIndex);
    HexPartCString('.', s.tblIndex);
  }

  lemma FileTailCString(s: AgentSym, topFrame: int)
    requires s.FileSym? && IsI32(IdFrame(s.frame, topFrame)) && MdepBytes.CString(s.ctxId)
    ensures MdepBytes.CString(FileTail(s, topFrame))
  {
    IntCString(IdFrame(s.frame, topFrame));
    CStringCat(".", TmpIntText(IdFrame(s.frame, topFrame)));
    HexPartCString('.', s.index);
    HexPartCString('.', s.dimension);
    HexPartCString('.', s.cardinal);
    CStringCat(".", s.ctxId);
  }

  lemma PseudoTextCString(s: AgentSym, baseId: string)
    requires s.PseudoSym? && MdepBytes.CString(baseId)
    ensures MdepBytes.CString(PseudoText(s, baseId))
  {
    HexPartCString('P', U64(s.symClass));
    HexPartCString('.', s.index);
    HexPartCString('.', s.length);
    CStringCat(".", baseId);
  }

  /** Regrouping a chain of appends. */
  lemma Cat2(w: string, a: string, b: string)
    ensures w + (a + b) == w + a + b
  {
  }

  lemma Cat3(w: string, a: string, b: string, c: string)
    ensures w + (a + b + c) == w + a + b + c
  {
  }

  lemma Cat5(w: string, a: string, b: string, c: string, d: string, e: string)
    ensures w + (a + b + c + d + e) == w + a + b + c + d + e
  {
  }

  /** tmp_buf and tmp_len. `written` is everything the appends were asked to write; the
      buffer holds its first 255 characters. */
  class TmpBuf {
    const buf: array<char>
    var len: nat
    ghost var written: string

    ghost predicate Valid()
      reads this, buf
    {
      buf.Length == TMP_BUF_SIZE && len <= TMP_BUF_SIZE - 1 && buf[..len] == Clip(written)
    }

    constructor ()
      ensures Valid() && written == []
    {
      buf := new char[TMP_BUF_SIZE];
      len := 0;
      written := [];
    }

    /** `tmp_len = 0`. */
    method Reset()
      requires Valid()
      modifies this
      ensures Valid() && written == []
    {
      len := 0;
      written := [];
    }

    /** tmp_app_char: stores `ch` only while fewer than 255 characters are held. */
    method AppChar(ch: char)
      requires Valid()
      modifies this, buf
      ensures Valid() && written == old(written) + [ch]
    {
      if len < TMP_BUF_SIZE - 1 {
        buf[len] := ch;
        len := len + 1;
      } else {
        assert Clip(written + [ch]) == Clip(written);
      }
      written := written + [ch];
    }

    /** tmp_app_str: the separator, then the characters of `s` up to its NUL. */
    method AppStr(ch: char, s: string)
      requires Valid() && MdepBytes.CString(s)
      modifies this, buf
      ensures Valid() && written == old(written) + StrPart(ch, s)
    {
      AppChar(ch);
      var k := 0;
      while k < |s|
        invariant Valid() && k <= |s|
        invariant written == old(written) + [ch] + s[..k]
      {
        assert s[..k + 1] == s[..k] + [s[k]];
        AppChar(s[k]);
        k := k + 1;
      }
      assert s[..k] == s;
    }

    /** The second loop of tmp_app_hex and tmp_app_int: `digits[n-1]` down to `digits[0]`. */
    method AppReversed(digits: array<char>, n: nat)
      requires Valid() && digits != buf && n <= digits.Length
      modifies this, buf
      ensures Valid() && written == old(written) + MdepBytes.Reverse(digits[..n])
    {
      var i: nat := n;
      while i > 0
        invariant i <= n
        invariant Valid()
        invariant written == old(written) + MdepBytes.Reverse(digits[i..n])
      {
        assert digits[i - 1..n] == [digits[i - 1]] + digits[i..n];
        MdepBytes.ReverseAppend([digits[i - 1]], digits[i..n]);
        AppChar(digits[i - 1]);
        i := i - 1;
      }
      assert digits[0..n] == digits[..n];
    }

    /** tmp_app_hex: the separator, then `n` in upper-case hex, most significant digit first. */
    method AppHex(ch: char, n: nat)
      requires Valid() && IsU64(n)
      modifies this, buf
      ensures Valid() && written == old(written) + HexPart(ch, n)
    {
      AppChar(ch);
      var digits, i := HexDigitsOf(n);
      AppReversed(digits, i);
      MdepBytes.ReverseTwice(digits[..i]);
    }

    /** tmp_app_int: the separator, a '-' for a negative `n` (negated as a 32-bit `int`), then
        the digits of the C `%` and `/` loop. */
    method AppInt(ch: char, n: int)
      requires Valid() && IsI32(n)
      modifies this, buf
      ensures Valid() && written == old(written) + IntPart(ch, n)
    {
      ghost var w0 := written;
      AppChar(ch);
      if n < 0 {
        AppNegative(n);
      } else {
        AppDecDigits(n);
      }
      Cat2(w0, [ch], TmpIntText(n));
    }

    /** The negative case of tmp_app_int: '-', then the digits of `-n` as a 32-bit `int`. */
    method AppNegative(n: int)
      requires Valid() && IsI32(n) && n < 0
      modifies this, buf
      ensures Valid() && written == old(written) + TmpIntText(n)
    {
      ghost var w0 := written;
      AppChar('-');
      var m := I32(-n);
      AppDecDigits(m);
      Cat2(w0, "-", CDigits(m));
    }

    method AppDecDigits(m: int)
      requires Valid() && IsI32(m)
      modifies this, buf
      ensures Valid() && written == old(written) + CDigits(m)
    {
      var digits, i := DecDigitsOf(m);
      AppReversed(digits, i);
      MdepBytes.ReverseTwice(digits[..i]);
    }

    method AppPseudo(s: AgentSym, baseId: string)
      requires Valid() && s.PseudoSym? && IsU32(s.index) && IsU64(s.length)
      requires MdepBytes.CString(baseId)
      modifies this, buf
      ensures Valid() && written == old(written) + PseudoText(s, baseId)
    {
      ghost var w0 := written;
      AppChar('@');
      AppHex('P', U64(s.symClass));
      AppHex('.', s.index);
      AppHex('.', s.length);
      AppStr('.', baseId);
      Cat5(w0, "@", HexPart('P', U64(s.symClass)), HexPart('.', s.index), HexPart('.', s.length),
           StrPart('.', baseId));
    }

    method AppFileIdent(s: AgentSym)
      requires Valid() && s.FileSym? && IsU64(s.dev) && IsU64(s.ino)
      modifies this, buf
      ensures Valid() && written == old(written) + FileIdent(s)
    {
      ghost var w0 := written;
      AppChar('@');
      AppHex('S', U64(s.symClass));
      AppHex('.', s.dev);
      AppHex('.', s.ino);
      AppHex('.', U64(s.mtime));
      Cat5(w0, "@", HexPart('S', U64(s.symClass)), HexPart('.', s.dev), HexPart('.', s.ino),
           HexPart('.', U64(s.mtime)));
    }

    method AppFileRefs(s: AgentSym)
      requires Valid() && s.FileSym? && IsU64(s.objIndex) && IsU64(s.varIndex) && IsU64(s.tblIndex)
      modifies this, buf
      ensures Valid() && written == old(written) + FileRefs(s)
    {
      ghost var w0 := written;
      AppHex('.', s.objIndex);
      AppHex('.', s.varIndex);
      AppHex('.', s.tblIndex);
      Cat3(w0, HexPart('.', s.objIndex), HexPart('.', s.varIndex), HexPart('.', s.tblIndex));
    }

    method AppFileTail(s: AgentSym, topFrame: int)
      requires Valid() && s.FileSym? && IsI32(IdFrame(s.frame, topFrame))
      requires IsU32(s.index) && IsU32(s.dimension) && IsU32(s.cardinal) && MdepBytes.CString(s.ctxId)
      modifies this, buf
      ensures Valid() && written == old(written) + FileTail(s, topFrame)
    {
      ghost var w0 := written;
      var frame := IdFrame(s.frame, topFrame);
      AppInt('.', frame);
      AppHex('.', s.index);
      AppHex('.', s.dimension);
      AppHex('.', s.cardinal);
      AppStr('.', s.ctxId);
      Cat5(w0, IntPart('.', frame), HexPart('.', s.index), HexPart('.', s.dimension),
           HexPart('.', s.cardinal), StrPart('.', s.ctxId));
    }

    /** symbol2id: the ID is built in tmp_buf and ended by a NUL at `tmp_len` (the counter's
        increment past it is not modelled: every ID starts with a reset). */
    method Symbol2Id(s: AgentSym, topFrame: int) returns (id: string)
      requires Valid() && WellFormed(s) && IsI32(topFrame)
      modifies this, buf
      ensures Valid() && id == IdText(s, topFrame)
      decreases s, 1
    {
      if s.PseudoSym? {
        PseudoId(s, topFrame);
      } else {
        FileId(s, topFrame);
      }
      buf[len] := '\0';
      id := buf[..len];
    }

    /** The "@S" branch. */
    method FileId(s: AgentSym, topFrame: int)
      requires Valid() && s.FileSym? && IsI32(IdFrame(s.frame, topFrame))
      requires IsU64(s.dev) && IsU64(s.ino) && IsU64(s.objIndex) && IsU64(s.varIndex)
      requires IsU64(s.tblIndex) && IsU32(s.index) && IsU32(s.dimension) && IsU32(s.cardinal)
      requires MdepBytes.CString(s.ctxId)
      modifies this, buf
      ensures Valid() && written == FileText(s, topFrame)
    {
      Reset();
      AppFileIdent(s);
      AppFileRefs(s);
      AppFileTail(s, topFrame);
      Cat3([], FileIdent(s), FileRefs(s), FileTail(s, topFrame));
    }

    /** The "@P" branch: the base's ID is built first, in this same buffer, and copied out
        with strlcpy before the buffer is reset. */
    method PseudoId(s: AgentSym, topFrame: int)
      requires Valid() && s.PseudoSym? && WellFormed(s.base) && IsI32(topFrame)
      requires IsU32(s.index) && IsU64(s.length)
      modifies this, buf
      ensures Valid() && written == PseudoText(s, IdText(s.base, topFrame))
      decreases s, 0
    {
      var baseId := Symbol2Id(s.base, topFrame);
      IdTextCString(s.base, topFrame);
      var baseText := CopyId(baseId);
      Reset();
      AppPseudo(s, baseText);
    }
  }

  /** `char base[256]; strlcpy(base, id, sizeof(base))`: an ID of at most 255 characters is
      copied whole. */
  method CopyId(id: string) returns (copied: string)
    requires |id| <= TMP_BUF_SIZE - 1 && MdepBytes.CString(id)
    ensures copied == id
  {
    var copy := new char[TMP_BUF_SIZE];
    var _ := MdepBytes.Strlcpy(copy, id, TMP_BUF_SIZE);
    copied := copy[..|id|];
  }

  /** The first loop of tmp_app_hex: `buf[i++]` gets the digits of `n`, least significant
      first, at least one. */
  method HexDigitsOf(n: nat) returns (digits: array<char>, i: nat)
    requires IsU64(n)
    ensures fresh(digits) && i <= digits.Length
    ensures MdepBytes.Reverse(digits[..i]) == Hex(n)
  {
    digits := new char[32];
    assert |Hex(n)| <= 16 by {
      Pow16Is64();
      HexLength(n, 16);
    }
    var m := n;
    i := 0;
    HexStep(n, m, []);
    digits[i] := HexDigit(m % 16);
    i := i + 1;
    m := m / 16;
    assert digits[..1] == [HexDigit(n % 16)];
    while m != 0
      invariant 1 <= i <= 16
      invariant Hex(n) == HexTail(m) + MdepBytes.Reverse(digits[..i])
      decreases m
    {
      ghost var ds := digits[..i];
      HexStep(n, m, ds);
      digits[i] := HexDigit(m % 16);
      assert digits[..i + 1] == ds + [HexDigit(m % 16)];
      i := i + 1;
      m := m / 16;
    }
  }

  /** One round of the hex digit loop. */
  lemma HexStep(n: nat, m: nat, ds: string)
    requires (ds == [] && m == n) || (m != 0 && Hex(n) == HexTail(m) + MdepBytes.Reverse(ds))
    ensures Hex(n) == HexTail(m / 16) + MdepBytes.Reverse(ds + [HexDigit(m % 16)])
  {
    MdepBytes.ReverseAppend(ds, [HexDigit(m % 16)]);
    HexSplit(m);
    if ds == [] && m == n {
      assert MdepBytes.Reverse(ds) == [];
    }
  }

  /** The first loop of tmp_app_int, with C's truncating `%` and `/`. */
  method DecDigitsOf(n: int) returns (digits: array<char>, i: nat)
    requires IsI32(n)
    ensures fresh(digits) && i <= digits.Length
    ensures MdepBytes.Reverse(digits[..i]) == CDigits(n)
  {
    digits := new char[32];
    CDigitsLength(n);
    var m := n;
    i := 0;
    DecStepDigits(n, m, []);
    digits[i] := DecChar(CRem(m, 10));
    i := i + 1;
    m := CDiv(m, 10);
    assert digits[..1] == [DecChar(CRem(n, 10))];
    while m != 0
      invariant 1 <= i <= 10
      invariant CDigits(n) == CTail(m) + MdepBytes.Reverse(digits[..i])
      decreases if m < 0 then -m else m
    {
      ghost var ds := digits[..i];
      DecStepDigits(n, m, ds);
      digits[i] := DecChar(CRem(m, 10));
      assert digits[..i + 1] == ds + [DecChar(CRem(m, 10))];
      i := i + 1;
      m := CDiv(m, 10);
    }
  }

  /** One round of the decimal digit loop. */
  lemma DecStepDigits(n: int, m: int, ds: string)
    requires (ds == [] && m == n) || (m != 0 && CDigits(n) == CTail(m) + MdepBytes.Reverse(ds))
    ensures CDigits(n) == CTail(CDiv(m, 10)) + MdepBytes.Reverse(ds + [DecChar(CRem(m, 10))])
  {
    MdepBytes.ReverseAppend(ds, [DecChar(CRem(m, 10))]);
    CDigitsSplit(m);
    if ds == [] && m == n {
      assert MdepBytes.Reverse(ds) == [];
    }
  }

  /** `n` without its last hex digit: empty when nothing is left. */
  function HexTail(m: nat): string {
    if m == 0 then [] else Hex(m)
  }

  lemma HexSplit(m: nat)
    ensures Hex(m) == HexTail(m / 16) + [HexDigit(m % 16)]
    ensures m != 0 ==> HexTail(m) == HexTail(m / 16) + [HexDigit(m % 16)]
  {
  }

  function DecChar(r: int): char
    requires -10 < r < 10
  {
    ('0' as int + r) as char
  }

  function CTail(m: int): string {
    if m == 0 then [] else CDigits(m)
  }

  lemma CDigitsSplit(m: int)
    ensures CDigits(m) == CTail(CDiv(m, 10)) + [DecChar(CRem(m, 10))]
    ensures m != 0 ==> CTail(m) == CTail(CDiv(m, 10)) + [DecChar(CRem(m, 10))]
  {
  }

  /** A 32-bit `int` has at most 10 decimal digits. */
  lemma CDigitsLength(m: int)
    requires IsI32(m)
    ensures |CDigits(m)| <= 10
  {
    var a := if m < 0 then -m else m;
    assert a < 10_000_000_000;
    CDigitsBound(m, 10, 10_000_000_000);
  }

  lemma {:induction false} CDigitsBound(m: int, k: nat, p: nat)
    requires (if m < 0 then -m else m) < p && p == Pow10(k) && k >= 1
    ensures |CDigits(m)| <= k
    decreases k
  {
    if CDiv(m, 10) != 0 {
      assert k >= 2;
      CDigitsBound(CDiv(m, 10), k - 1, Pow10(k - 1));
    }
  }

  function Pow10(k: nat): (p: nat)
    ensures p >= 1
  {
    if k == 0 then 1 else 10 * Pow10(k - 1)
  }

  // ---- id2symbol ----

  /** The fields after "@P": class, index and length, and the base's ID. */
  function ParsePseudo(t: string): (r: (int, nat, nat, string))
    ensures |r.3| <= |t|
  {
    var (c, t1) := HexField(t);
    var (ix, t2) := HexField(t1);
    var (ln, t3) := HexField(t2);
    (I32(c), ix % TWO_32, ln, t3)
  }

  /** The fields after "@S", converted to their C types as `id2symbol` does, and the
      context ID that ends the text. */
  function ParseFile(t: string): (r: AgentSym)
    ensures r.FileSym?
  {
    var (c, t1) := HexField(t);
    var (dev, t2) := HexField(t1);
    var (ino, t3) := HexField(t2);
    var (mt, t4) := HexField(t3);
    var (obj, t5) := HexField(t4);
    var (v, t6) := HexField(t5);
    var (tbl, t7) := HexField(t6);
    var (fr, t8) := IntField(t7);
    var (ix, t9) := HexField(t8);
    var (dim, t10) := HexField(t9);
    var (card, t11) := HexField(t10);
    FileSym(I32(c), dev, ino, I64(mt), obj, v, tbl % TWO_32, fr, ix % TWO_32, dim % TWO_32,
            card % TWO_32, t11)
  }

  /** An ELF file as `elf_open_inode` and the DWARF cache present it: the IDs of its
      objects and its section count. */
  datatype ElfFile = ElfFile(objects: set<nat>, sectionCnt: nat)

  /** The lookups id2symbol delegates: `id2ctx` (the known context IDs) and
      `elf_open_inode` (files by device, inode and modification time, and the error code it
      sets when a file does not open). */
  datatype Lookups = Lookups(contexts: set<string>, files: map<(nat, nat, int), ElfFile>, openError: Err)

  predicate NoFile(f: AgentSym)
    requires f.FileSym?
  {
    f.dev == 0 && f.ino == 0 && f.mtime == 0
  }

  /** The "@S" lookups: an unknown context fails; a symbol without a file is done without
      opening one (its object, variable and table stay NULL); otherwise the file must open
      and each non-zero object, variable and table index must resolve, a table index below
      the section count. */
  function Resolve(f: AgentSym, env: Lookups): (r: Result<AgentSym>)
    requires f.FileSym?
    ensures f.ctxId !in env.contexts ==> r == Fail(ErrInvContext)
    ensures f.ctxId in env.contexts && NoFile(f) ==> r == Ok(f.(objIndex := 0, varIndex := 0, tblIndex := 0))
    ensures f.ctxId in env.contexts && !NoFile(f) && (f.dev, f.ino, f.mtime) !in env.files ==>
              r == Fail(env.openError)
    ensures r.Ok? && !NoFile(f) ==>
      && r == Ok(f)
      && (f.dev, f.ino, f.mtime) in env.files
      && (f.tblIndex == 0 || f.tblIndex < env.files[(f.dev, f.ino, f.mtime)].sectionCnt)
  {
    if f.ctxId !in env.contexts then Fail(ErrInvContext)
    else if NoFile(f) then Ok(f.(objIndex := 0, varIndex := 0, tblIndex := 0))
    else if (f.dev, f.ino, f.mtime) !in env.files then Fail(env.openError)
    else
      var file := env.files[(f.dev, f.ino, f.mtime)];
      if f.objIndex != 0 && f.objIndex !in file.objects then Fail(ErrInvContext)
      else if f.varIndex != 0 && f.varIndex !in file.objects then Fail(ErrInvContext)
      else if f.tblIndex != 0 && f.tblIndex >= file.sectionCnt then Fail(ErrInvContext)
      else Ok(f)
  }

  /** id2symbol: "@P" decodes its fields and then the base from the rest of the text, "@S"
      decodes and resolves, anything else fails with ERR_INV_CONTEXT. */
  function Decode(id: string, env: Lookups): (r: Result<AgentSym>)
    ensures !(|id| >= 2 && id[0] == '@' && (id[1] == 'P' || id[1] == 'S')) ==> r == Fail(ErrInvContext)
    ensures r.Ok? && id[1] == 'P' ==> r.value.PseudoSym?
    ensures r.Ok? && id[1] == 'S' ==> r.value.FileSym?
    decreases |id|
  {
    if |id| >= 2 && id[0] == '@' && id[1] == 'P' then
      var (c, ix, ln, rest) := ParsePseudo(id[2..]);
      match Decode(rest, env)
      case Fail(e) => Fail(e)
      case Ok(b) => Ok(PseudoSym(c, ix, ln, b))
    else if |id| >= 2 && id[0] == '@' && id[1] == 'S' then
      Resolve(ParseFile(id[2..]), env)
    else
      Fail(ErrInvContext)
  }

  /** id2symbol as written: a cursor over the text, recursing for the base of "@P". */
  method Id2Symbol(id: string, env: Lookups) returns (r: Result<AgentSym>)
    ensures r == Decode(id, env)
    decreases |id|
  {
    if |id| >= 2 && id[0] == '@' && id[1] == 'P' {
      var p := 2;
      var c, ix, ln;
      c, p := HexFieldAt(id, p);
      ix, p := HexFieldAt(id, p);
      ln, p := HexFieldAt(id, p);
      var base := Id2Symbol(id[p..], env);
      if base.Fail? {
        return Fail(base.error);
      }
      r := Ok(PseudoSym(I32(c), ix % TWO_32, ln, base.value));
    } else if |id| >= 2 && id[0] == '@' && id[1] == 'S' {
      var f := ReadFileFields(id);
      r := Resolve(f, env);
    } else {
      r := Fail(ErrInvContext);
    }
  }

  /** The "@S" cursor: eleven number fields and the context ID. */
  method ReadFileFields(id: string) returns (f: AgentSym)
    requires |id| >= 2
    ensures f == ParseFile(id[2..])
  {
    var p := 2;
    var c, dev, ino, mt, obj, v, tbl, fr, ix, dim, card;
    c, p := HexFieldAt(id, p);
    dev, p := HexFieldAt(id, p);
    ino, p := HexFieldAt(id, p);
    mt, p := HexFieldAt(id, p);
    obj, p := HexFieldAt(id, p);
    v, p := HexFieldAt(id, p);
    tbl, p := HexFieldAt(id, p);
    fr, p := IntFieldAt(id, p);
    ix, p := HexFieldAt(id, p);
    dim, p := HexFieldAt(id, p);
    card, p := HexFieldAt(id, p);
    f := FileSym(I32(c), dev, ino, I64(mt), obj, v, tbl % TWO_32, fr, ix % TWO_32, dim % TWO_32,
                 card % TWO_32, id[p..]);
  }

  // ---- round trip ----

  /** A 32-bit class written as an unsigned 64-bit hex pattern reads back as itself. */
  lemma ClassRoundTrip(c: int)
    requires IsI32(c)
    ensures I32(U64(c)) == c
  {
    if c < 0 {
      assert U64(c) == c + TWO_64;
      assert (c + TWO_64) % TWO_32 == c + TWO_32 by {
        ModUnique(c + TWO_64, TWO_32, TWO_32 - 1, c + TWO_32);
      }
    }
  }

  /** A 64-bit modification time written as an unsigned hex pattern reads back as itself. */
  lemma MtimeRoundTrip(m: int)
    requires IsI64(m)
    ensures I64(U64(m)) == m
  {
  }

  /** The "@S" text as the reader walks it: the twelve fields, each followed by a '.'. */
  lemma FileRegroup(x0: string, x1: string, x2: string, x3: string, x4: string, x5: string,
                    x6: string, x7: string, x8: string, x9: string, x10: string, x11: string)
    ensures ("@" + ("S" + x0) + ("." + x1) + ("." + x2) + ("." + x3))
              + (("." + x4) + ("." + x5) + ("." + x6))
              + (("." + x7) + ("." + x8) + ("." + x9) + ("." + x10) + ("." + x11))
            == "@S" + (x0 + "." + (x1 + "." + (x2 + "." + (x3 + "." + (x4 + "." + (x5 + "."
                 + (x6 + "." + (x7 + "." + (x8 + "." + (x9 + "." + (x10 + "." + x11)))))))))))
  {
  }

  /** The "@P" text as the reader walks it. */
  lemma PseudoRegroup(x0: string, x1: string, x2: string, x3: string)
    ensures "@" + ("P" + x0) + ("." + x1) + ("." + x2) + ("." + x3)
            == "@P" + (x0 + "." + (x1 + "." + (x2 + "." + x3)))
  {
  }

  /** What reading an "@S" ID gives back, before the lookups: every field as written, with
      the frame `symbol2id` substituted. */
  function Written(s: AgentSym, topFrame: int): (w: AgentSym)
    requires s.FileSym?
    ensures w.FileSym? && w.frame == IdFrame(s.frame, topFrame)
  {
    s.(frame := IdFrame(s.frame, topFrame))
  }

  /** The "@S" fields as the reader walks them, each followed by a '.', ending in the
      context ID. */
  function FileFields(s: AgentSym, topFrame: int): string
    requires s.FileSym? && IsI32(IdFrame(s.frame, topFrame))
  {
    Hex(U64(s.symClass)) + "." + (Hex(s.dev) + "." + (Hex(s.ino) + "." + (Hex(U64(s.mtime)) + "."
      + FileRefFields(s, topFrame))))
  }

  function FileRefFields(s: AgentSym, topFrame: int): string
    requires s.FileSym? && IsI32(IdFrame(s.frame, topFrame))
  {
    Hex(s.objIndex) + "." + (Hex(s.varIndex) + "." + (Hex(s.tblIndex) + "." + FileTailFields(s, topFrame)))
  }

  function FileTailFields(s: AgentSym, topFrame: int): string
    requires s.FileSym? && IsI32(IdFrame(s.frame, topFrame))
  {
    TmpIntText(IdFrame(s.frame, topFrame)) + "." + (Hex(s.index) + "." + (Hex(s.dimension) + "."
      + (Hex(s.cardinal) + "." + s.ctxId)))
  }

  lemma FileTextFields(s: AgentSym, topFrame: int)
    requires s.FileSym? && IsI32(IdFrame(s.frame, topFrame))
    ensures FileText(s, topFrame) == "@S" + FileFields(s, topFrame)
    ensures FileText(s, topFrame)[2..] == FileFields(s, topFrame)
  {
    FileRegroup(Hex(U64(s.symClass)), Hex(s.dev), Hex(s.ino), Hex(U64(s.mtime)), Hex(s.objIndex),
                Hex(s.varIndex), Hex(s.tblIndex), TmpIntText(IdFrame(s.frame, topFrame)),
                Hex(s.index), Hex(s.dimension), Hex(s.cardinal), s.ctxId);
    assert FileText(s, topFrame) == "@S" + FileFields(s, topFrame);
  }

  /** id2symbol undoes symbol2id on the fields of a file symbol, except for a frame of INT_MIN
      (which tmp_app_int writes as "-" followed by non-digits). */
  lemma ParseFileText(s: AgentSym, topFrame: int)
    requires s.FileSym? && WellFormed(s) && IsI32(topFrame)
    requires IdFrame(s.frame, topFrame) != -0x8000_0000
    ensures ParseFile(FileText(s, topFrame)[2..]) == Written(s, topFrame)
  {
    FileTextFields(s, topFrame);
    var t4 := FileRefFields(s, topFrame);
    var t3 := Hex(U64(s.mtime)) + "." + t4;
    var t2 := Hex(s.ino) + "." + t3;
    var t1 := Hex(s.dev) + "." + t2;
    HexFieldOf(U64(s.symClass), t1);
    HexFieldOf(s.dev, t2);
    HexFieldOf(s.ino, t3);
    HexFieldOf(U64(s.mtime), t4);
    assert HexField(FileFields(s, topFrame)) == (U64(s.symClass), t1);
    ParseRefFields(s, topFrame);
    ParseTailFields(s, topFrame);
    ClassRoundTrip(s.symClass);
    MtimeRoundTrip(s.mtime);
    var (obj, t5) := HexField(t4);
    var (v, t6) := HexField(t5);
    var (tbl, t7) := HexField(t6);
    var (fr, t8) := IntField(t7);
    var (ix, t9) := HexField(t8);
    var (dim, t10) := HexField(t9);
    var (card, t11) := HexField(t10);
    assert IsU32(s.tblIndex) && IsU32(s.index) && IsU32(s.dimension) && IsU32(s.cardinal);
    ModUnique(tbl, TWO_32, 0, tbl);
    ModUnique(ix, TWO_32, 0, ix);
    ModUnique(dim, TWO_32, 0, dim);
    ModUnique(card, TWO_32, 0, card);
    assert ParseFile(FileFields(s, topFrame))
      == FileSym(I32(U64(s.symClass)), s.dev, s.ino, I64(U64(s.mtime)), obj, v, tbl % TWO_32, fr,
                 ix % TWO_32, dim % TWO_32, card % TWO_32, t11);
  }

  /** The object, variable and table fields and what follows them. */
  lemma ParseRefFields(s: AgentSym, topFrame: int)
    requires s.FileSym? && WellFormed(s) && IsI32(topFrame)
    requires IdFrame(s.frame, topFrame) != -0x8000_0000
    ensures var (obj, t5) := HexField(FileRefFields(s, topFrame));
            var (v, t6) := HexField(t5);
            var (tbl, t7) := HexField(t6);
            obj == s.objIndex && v == s.varIndex && tbl == s.tblIndex
            && t7 == FileTailFields(s, topFrame)
  {
    var t7 := FileTailFields(s, topFrame);
    HexFieldOf(s.objIndex, Hex(s.varIndex) + "." + (Hex(s.tblIndex) + "." + t7));
    HexFieldOf(s.varIndex, Hex(s.tblIndex) + "." + t7);
    HexFieldOf(s.tblIndex, t7);
  }

  /** The frame, index, dimension and cardinal fields, and the context ID after them. */
  lemma ParseTailFields(s: AgentSym, topFrame: int)
    requires s.FileSym? && WellFormed(s) && IsI32(topFrame)
    requires IdFrame(s.frame, topFrame) != -0x8000_0000
    ensures var (fr, t8) := IntField(FileTailFields(s, topFrame));
            var (ix, t9) := HexField(t8);
            var (dim, t10) := HexField(t9);
            var (card, t11) := HexField(t10);
            fr == IdFrame(s.frame, topFrame) && ix == s.index && dim == s.dimension
            && card == s.cardinal && t11 == s.ctxId
  {
    var fr := IdFrame(s.frame, topFrame);
    var t11 := s.ctxId;
    IntFieldOf(fr, Hex(s.index) + "." + (Hex(s.dimension) + "." + (Hex(s.cardinal) + "." + t11)));
    HexFieldOf(s.index, Hex(s.dimension) + "." + (Hex(s.cardinal) + "." + t11));
    HexFieldOf(s.dimension, Hex(s.cardinal) + "." + t11);
    HexFieldOf(s.cardinal, t11);
  }

  /** The "@P" fields as the reader walks them, ending in the base's ID. */
  function PseudoFields(s: AgentSym, baseId: string): string
    requires s.PseudoSym?
  {
    Hex(U64(s.symClass)) + "." + (Hex(s.index) + "." + (Hex(s.length) + "." + baseId))
  }

  /** id2symbol undoes symbol2id on the fields of a pseudo-symbol and hands the rest of the
      text, the base's ID, to the recursive call. */
  lemma ParsePseudoText(s: AgentSym, baseId: string)
    requires s.PseudoSym? && IsI32(s.symClass) && IsU32(s.index) && IsU64(s.length)
    ensures PseudoText(s, baseId) == "@P" + PseudoFields(s, baseId)
    ensures ParsePseudo(PseudoFields(s, baseId)) == (s.symClass, s.index, s.length, baseId)
  {
    PseudoRegroup(Hex(U64(s.symClass)), Hex(s.index), Hex(s.length), baseId);
    HexFieldOf(U64(s.symClass), Hex(s.index) + "." + (Hex(s.length) + "." + baseId));
    HexFieldOf(s.index, Hex(s.length) + "." + baseId);
    HexFieldOf(s.length, baseId);
    ClassRoundTrip(s.symClass);
    ModUnique(s.index, TWO_32, 0, s.index);
  }

  /** Every text symbol2id writes for `s` fits tmp_buf, so none of them is cut. */
  predicate Untruncated(s: AgentSym, topFrame: int)
    requires WellFormed(s) && IsI32(topFrame)
  {
    match s
    case PseudoSym(_, _, _, b) =>
      |PseudoText(s, IdText(b, topFrame))| <= TMP_BUF_SIZE - 1 && Untruncated(b, topFrame)
    case FileSym(_, _, _, _, _, _, _, _, _, _, _, _) => |FileText(s, topFrame)| <= TMP_BUF_SIZE - 1
  }

  /** No frame symbol2id writes is INT_MIN. */
  predicate NoMinFrame(s: AgentSym, topFrame: int) {
    match s
    case PseudoSym(_, _, _, b) => NoMinFrame(b, topFrame)
    case FileSym(_, _, _, _, _, _, _, _, _, _, _, _) => IdFrame(s.frame, topFrame) != -0x8000_0000
  }

  /** What id2symbol should give back for the ID of `s`: the same chain of pseudo-symbols
      over the file symbol as written, resolved against the lookups. */
  function Reread(s: AgentSym, topFrame: int, env: Lookups): (r: Result<AgentSym>)
    ensures r.Ok? ==> r.value.PseudoSym? == s.PseudoSym?
  {
    match s
    case PseudoSym(c, i, l, b) =>
      (match Reread(b, topFrame, env)
       case Fail(e) => Fail(e)
       case Ok(b2) => Ok(PseudoSym(c, i, l, b2)))
    case FileSym(_, _, _, _, _, _, _, _, _, _, _, _) => Resolve(Written(s, topFrame), env)
  }

  /** id2symbol(symbol2id(s)) gives back `s`, resolved, whenever no ID was cut by tmp_buf and
      no frame is INT_MIN. */
  lemma {:induction false} IdRoundTrip(s: AgentSym, topFrame: int, env: Lookups)
    requires WellFormed(s) && IsI32(topFrame) && Untruncated(s, topFrame) && NoMinFrame(s, topFrame)
    ensures Decode(IdText(s, topFrame), env) == Reread(s, topFrame, env)
  {
    match s
    case PseudoSym(c, i, l, b) =>
      PseudoIdStep(s, topFrame, env);
      IdRoundTrip(b, topFrame, env);
    case FileSym(_, _, _, _, _, _, _, _, _, _, _, _) =>
      FileIdRoundTrip(s, topFrame, env);
  }

  /** An untruncated "@S" ID decodes to the symbol as written, resolved. */
  lemma FileIdRoundTrip(s: AgentSym, topFrame: int, env: Lookups)
    requires s.FileSym? && WellFormed(s) && IsI32(topFrame)
    requires |FileText(s, topFrame)| <= TMP_BUF_SIZE - 1 && IdFrame(s.frame, topFrame) != -0x8000_0000
    ensures Decode(IdText(s, topFrame), env) == Resolve(Written(s, topFrame), env)
  {
    FileTextFields(s, topFrame);
    ParseFileText(s, topFrame);
    var id := IdText(s, topFrame);
    assert id == "@S" + FileFields(s, topFrame);
    assert id[0] == '@' && id[1] == 'S' && id[2..] == FileFields(s, topFrame);
    DecodeFile(id, env);
  }

  /** An untruncated "@P" ID decodes to its fields over whatever its base's ID decodes to. */
  lemma PseudoIdStep(s: AgentSym, topFrame: int, env: Lookups)
    requires s.PseudoSym? && WellFormed(s) && IsI32(topFrame)
    requires |PseudoText(s, IdText(s.base, topFrame))| <= TMP_BUF_SIZE - 1
    ensures Decode(IdText(s, topFrame), env)
            == match Decode(IdText(s.base, topFrame), env)
               case Fail(e) => Fail(e)
               case Ok(b) => Ok(PseudoSym(s.symClass, s.index, s.length, b))
  {
    var baseId := IdText(s.base, topFrame);
    ParsePseudoText(s, baseId);
    var id := IdText(s, topFrame);
    assert id == "@P" + PseudoFields(s, baseId);
    assert id[2..] == PseudoFields(s, baseId);
  }

  /** The "@S" branch of id2symbol. */
  lemma DecodeFile(id: string, env: Lookups)
    requires |id| >= 2 && id[0] == '@' && id[1] == 'S'
    ensures Decode(id, env) == Resolve(ParseFile(id[2..]), env)
  {
  }

  /** The "@P" branch of id2symbol. */
  lemma DecodePseudo(id: string, env: Lookups)
    requires |id| >= 2 && id[0] == '@' && id[1] == 'P'
    ensures Decode(id, env)
            == var (c, ix, ln, rest) := ParsePseudo(id[2..]);
               match Decode(rest, env)
               case Fail(e) => Fail(e)
               case Ok(b) => Ok(PseudoSym(c, ix, ln, b))
  {
  }
}
