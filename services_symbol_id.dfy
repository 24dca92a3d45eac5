/** Symbol IDs of the value-add server's symbol reader: `symbol2id` prints a symbol into a
    256-byte buffer with one `snprintf` ("PTR..." for a pointer pseudo-type over a base
    symbol, "SYM..." otherwise) and `id2symbol` reads the fields back with a cursor,
    resolving the context, the frame, the ELF file and its objects through lookups that are
    parameters here. */
module ServiceSymbolId {
  import opened Base
  import opened Digits
  import AgentSymbolId

  /** The frame numbers of the stack-trace service. */
  const STACK_NO_FRAME: int := -1
  const STACK_TOP_FRAME: int := -2

  /** The key `elf_open_inode` finds a file by. */
  datatype FileKey = FileKey(dev: nat, ino: nat, mtime: int)

  /** A symbol of the server's reader. A pointer pseudo-type (`sym->base != NULL`) has a size
      and a base. Every other symbol has a class, the file its DWARF object or ELF symbol
      table comes from, the object's ID and the table's index in the file (`mIndex`), its
      frame, index, dimension and size, and the ID of its context. */
  datatype SvcSym =
    | PtrSym(size: nat, base: SvcSym)
    | PlainSym(symClass: int, file: Option<FileKey>, obj: Option<nat>, tbl: Option<nat>,
               frame: int, index: nat, dimension: nat, size: nat, ctxId: string)

  /** The C types of the fields (`int` class and frame, `unsigned` index and dimension,
      64-bit sizes, device, inode and object IDs, `int64_t` mtime), and the shape of the
      pointers: a file exactly when there is an object or a table, object IDs above zero, a
      table index whose successor is still `unsigned`, and no file whose key is all zero. */
  predicate WellFormed(s: SvcSym) {
    match s
    case PtrSym(size, b) => IsU64(size) && WellFormed(b)
    case PlainSym(c, file, obj, tbl, fr, ix, dim, size, _) =>
      && IsI32(c) && IsI32(fr) && IsU32(ix) && IsU32(dim) && IsU64(size)
      && (file.Some? <==> obj.Some? || tbl.Some?)
      && (file.Some? ==> IsU64(file.value.dev) && IsU64(file.value.ino) && IsI64(file.value.mtime)
                         && !(file.value.dev == 0 && file.value.ino == 0 && file.value.mtime == 0))
      && (obj.Some? ==> 0 < obj.value && IsU64(obj.value))
      && (tbl.Some? ==> IsU32(tbl.value + 1))
  }

  /** The numbers of a "SYM" ID in the order they are written, as `snprintf` receives them:
      the class as an `unsigned` pattern, the file key (zero without a file, the mtime as a
      64-bit pattern), the object ID (0 for none), the table index plus one (0 for none),
      the frame, index, dimension and size; then the context ID. */
  datatype SymFields = SymFields(cls: nat, dev: nat, ino: nat, mtime: nat, obj: nat, tbl: nat,
                                 frame: int, index: nat, dimension: nat, size: nat, ctxId: string)

  /** The frame `symbol2id` writes: STACK_TOP_FRAME is replaced by the context's top frame. */
  function IdFrame(frame: int, topFrame: int): (f: int)
    ensures frame != STACK_TOP_FRAME ==> f == frame
  {
    if frame == STACK_TOP_FRAME then topFrame else frame
  }

  function FieldsOf(s: SvcSym, topFrame: int): (f: SymFields)
    requires s.PlainSym?
    ensures f.ctxId == s.ctxId && f.frame == IdFrame(s.frame, topFrame)
    ensures s.file.None? ==> f.dev == 0 && f.ino == 0 && f.mtime == 0
    ensures s.tbl.None? ==> f.tbl == 0
  {
    var key := if s.file.Some? then s.file.value else FileKey(0, 0, 0);
    SymFields(U32(s.symClass), key.dev, key.ino, U64(key.mtime),
              if s.obj.Some? then s.obj.value else 0,
              if s.tbl.Some? then U32(s.tbl.value + 1) else 0,
              IdFrame(s.frame, topFrame), s.index, s.dimension, s.size, s.ctxId)
  }

  /** The "SYM" fields as printed, each followed by a '.', ending in the context ID. */
  function FieldsText(f: SymFields): string {
    Hex(f.cls) + "." + (Hex(f.dev) + "." + (Hex(f.ino) + "." + (Hex(f.mtime) + "."
      + (Hex(f.obj) + "." + TailText(f)))))
  }

  function TailText(f: SymFields): string {
    Hex(f.tbl) + "." + (SignedDec(f.frame) + "." + (Hex(f.index) + "." + (Hex(f.dimension) + "."
      + (Hex(f.size) + "." + f.ctxId))))
  }

  /** The "PTR" text before the buffer cuts it: the size and the base's ID. */
  function PtrIdText(size: nat, baseId: string): string {
    "PTR" + (Hex(size) + "." + baseId)
  }

  /** symbol2id: the text `snprintf` leaves in the 256-byte buffer, at most 255 characters.
      A pointer pseudo-type prints its size and its base's ID; any other symbol its fields. */
  function IdText(s: SvcSym, topFrame: int): (id: string)
    ensures |id| <= 255
  {
    match s
    case PtrSym(size, b) => AgentSymbolId.Clip(PtrIdText(size, IdText(b, topFrame)))
    case PlainSym(_, _, _, _, _, _, _, _, _) => AgentSymbolId.Clip("SYM" + FieldsText(FieldsOf(s, topFrame)))
  }

  // ---- id2symbol ----

  /** The "SYM" fields as `read_hex` and `read_int` give them back, each followed by an
      optional '.', and the rest of the text as the context ID. */
  function ParseFields(t: string): (f: SymFields)
  {
    var (c, t1) := HexField(t);
    var (dev, t2) := HexField(t1);
    var (ino, t3) := HexField(t2);
    var (mt, t4) := HexField(t3);
    var (obj, t5) := HexField(t4);
    var (tbl, t6) := HexField(t5);
    var (fr, t7) := IntField(t6);
    var (ix, t8) := HexField(t7);
    var (dim, t9) := HexField(t8);
    var (size, t10) := HexField(t9);
    SymFields(c, dev, ino, mt, obj, tbl, fr, ix, dim, size, t10)
  }

  /** A file as `elf_open_inode` and its DWARF cache present it: the IDs `find_object`
      resolves and the number of symbol sections. */
  datatype ElfFile = ElfFile(objects: set<nat>, symSectionsCnt: nat)

  /** The lookups id2symbol delegates: `id2ctx` (the known context IDs), `get_frame_info`
      with the PC read of `get_sym_context` (the frames that can be read), and
      `elf_open_inode` (the files that open), with the error codes those calls set when
      they fail. */
  datatype Lookups = Lookups(contexts: set<string>, frames: set<(string, int)>,
                             files: map<FileKey, ElfFile>, frameError: Err, openError: Err)

  /** get_sym_context: the process and top-frame pseudo-frames always succeed; any other
      frame must be readable. */
  predicate FrameOk(ctxId: string, frame: int, env: Lookups) {
    frame == STACK_NO_FRAME || frame == STACK_TOP_FRAME || (ctxId, frame) in env.frames
  }

  /** The "SYM" branch of id2symbol after the fields are read: the C conversions of the
      numbers, then the context, the frame, the file and its object and table. */
  function Resolve(f: SymFields, env: Lookups): (r: Result<SvcSym>)
    ensures f.ctxId !in env.contexts ==> r == Fail(ErrInvContext)
    ensures f.ctxId in env.contexts && !FrameOk(f.ctxId, f.frame, env) ==> r == Fail(env.frameError)
    ensures var key := FileKey(f.dev, f.ino, I64(f.mtime));
            f.ctxId in env.contexts && FrameOk(f.ctxId, f.frame, env)
            && !(f.dev == 0 && f.ino == 0 && key.mtime == 0) && key !in env.files
            ==> r == Fail(env.openError)
    ensures r.Ok? ==> r.value.PlainSym? && r.value.ctxId == f.ctxId && r.value.frame == f.frame
    ensures r.Ok? ==> FrameOk(f.ctxId, f.frame, env)
    ensures f.ctxId in env.contexts && FrameOk(f.ctxId, f.frame, env)
            && f.dev == 0 && f.ino == 0 && f.mtime == 0
            ==> r.Ok? && r.value.file.None? && r.value.obj.None? && r.value.tbl.None?
    ensures r.Ok? && r.value.file.Some? ==> r.value.file.value in env.files
    ensures f.obj != 0 && r.Ok? && r.value.file.Some? ==> r.value.obj == Some(f.obj)
    ensures var key := FileKey(f.dev, f.ino, I64(f.mtime));
            !(f.dev == 0 && f.ino == 0 && key.mtime == 0) && U32(f.tbl) != 0 && key in env.files
            && U32(f.tbl) > env.files[key].symSectionsCnt
            ==> r.Fail?
    ensures r.Ok? && r.value.tbl.Some? ==>
              && r.value.file.Some? && r.value.tbl.value + 1 == U32(f.tbl)
              && r.value.tbl.value < env.files[r.value.file.value].symSectionsCnt
  {
    var plain := PlainSym(I32(f.cls), None, None, None, f.frame, U32(f.index), U32(f.dimension),
                          f.size, f.ctxId);
    var key := FileKey(f.dev, f.ino, I64(f.mtime));
    var tbl := U32(f.tbl);
    if f.ctxId !in env.contexts then Fail(ErrInvContext)
    else if !FrameOk(f.ctxId, f.frame, env) then Fail(env.frameError)
    else if f.dev == 0 && f.ino == 0 && key.mtime == 0 then Ok(plain)
    else if key !in env.files then Fail(env.openError)
    else if f.obj != 0 && f.obj !in env.files[key].objects then Fail(ErrInvContext)
    else if tbl != 0 && tbl > env.files[key].symSectionsCnt then Fail(ErrInvContext)
    else
      Ok(plain.(file := if f.obj != 0 || tbl != 0 then Some(key) else None,
                obj := if f.obj != 0 then Some(f.obj) else None,
                tbl := if tbl != 0 then Some(tbl - 1) else None))
  }

  predicate HasPrefix(id: string, p: string) {
    |id| >= |p| && id[..|p|] == p
  }

  /** id2symbol: "PTR" reads the size and then the base from the rest of the text; "SYM"
      reads the fields and resolves them; anything else fails with ERR_INV_CONTEXT. */
  function Decode(id: string, env: Lookups): (r: Result<SvcSym>)
    ensures !HasPrefix(id, "PTR") && !HasPrefix(id, "SYM") ==> r == Fail(ErrInvContext)
    ensures r.Ok? && HasPrefix(id, "PTR") ==> r.value.PtrSym? && r.value.size == HexField(id[3..]).0
    ensures r.Ok? && HasPrefix(id, "SYM") ==> r.value.PlainSym?
    decreases |id|
  {
    if HasPrefix(id, "PTR") then
      var (size, rest) := HexField(id[3..]);
      match Decode(rest, env)
      case Fail(e) => Fail(e)
      case Ok(b) => Ok(PtrSym(size, b))
    else if HasPrefix(id, "SYM") then
      Resolve(ParseFields(id[3..]), env)
    else
      Fail(ErrInvContext)
  }

  /** id2symbol as written: a cursor over the text, recursing for the base of "PTR". */
  method Id2Symbol(id: string, env: Lookups) returns (r: Result<SvcSym>)
    ensures r == Decode(id, env)
    decreases |id|
  {
    if |id| >= 3 && id[0] == 'P' && id[1] == 'T' && id[2] == 'R' {
      assert HasPrefix(id, "PTR");
      var size, p := HexFieldAt(id, 3);
      var base := Id2Symbol(id[p..], env);
      if base.Fail? {
        return Fail(base.error);
      }
      r := Ok(PtrSym(size, base.value));
    } else if |id| >= 3 && id[0] == 'S' && id[1] == 'Y' && id[2] == 'M' {
      assert HasPrefix(id, "SYM") && !HasPrefix(id, "PTR");
      var f := ReadFields(id);
      r := Resolve(f, env);
    } else {
      assert !HasPrefix(id, "PTR") && !HasPrefix(id, "SYM");
      r := Fail(ErrInvContext);
    }
  }

  /** The "SYM" cursor: ten number fields and the context ID. */
  method ReadFields(id: string) returns (f: SymFields)
    requires |id| >= 3
    ensures f == ParseFields(id[3..])
  {
    var p := 3;
    var c, dev, ino, mt, obj, tbl, fr, ix, dim, size;
    c, p := HexFieldAt(id, p);
    dev, p := HexFieldAt(id, p);
    ino, p := HexFieldAt(id, p);
    mt, p := HexFieldAt(id, p);
    obj, p := HexFieldAt(id, p);
    tbl, p := HexFieldAt(id, p);
    fr, p := IntFieldAt(id, p);
    ix, p := HexFieldAt(id, p);
    dim, p := HexFieldAt(id, p);
    size, p := HexFieldAt(id, p);
    f := SymFields(c, dev, ino, mt, obj, tbl, fr, ix, dim, size, id[p..]);
  }

  // ---- round trip ----

  /** Every number of the fields fits the width it is printed in. */
  predicate FieldsInRange(f: SymFields) {
    IsU64(f.cls) && IsU64(f.dev) && IsU64(f.ino) && IsU64(f.mtime) && IsU64(f.obj)
    && IsU64(f.tbl) && IsI32(f.frame) && IsU64(f.index) && IsU64(f.dimension) && IsU64(f.size)
  }

  /** Reading the printed fields gives them back, the frame included (INT_MIN too, since
      `%d` prints its digits). */
  lemma ParseFieldsText(f: SymFields)
    requires FieldsInRange(f)
    ensures ParseFields(FieldsText(f)) == f
  {
    var t5 := TailText(f);
    var t4 := Hex(f.obj) + "." + t5;
    var t3 := Hex(f.mtime) + "." + t4;
    var t2 := Hex(f.ino) + "." + t3;
    var t1 := Hex(f.dev) + "." + t2;
    HexFieldOf(f.cls, t1);
    HexFieldOf(f.dev, t2);
    HexFieldOf(f.ino, t3);
    HexFieldOf(f.mtime, t4);
    HexFieldOf(f.obj, t5);
    ParseTailText(f);
  }

  lemma ParseTailText(f: SymFields)
    requires FieldsInRange(f)
    ensures var (tbl, t6) := HexField(TailText(f));
            var (fr, t7) := IntField(t6);
            var (ix, t8) := HexField(t7);
            var (dim, t9) := HexField(t8);
            var (size, t10) := HexField(t9);
            tbl == f.tbl && fr == f.frame && ix == f.index && dim == f.dimension
            && size == f.size && t10 == f.ctxId
  {
    var t9 := Hex(f.size) + "." + f.ctxId;
    var t8 := Hex(f.dimension) + "." + t9;
    var t7 := Hex(f.index) + "." + t8;
    var t6 := SignedDec(f.frame) + "." + t7;
    HexFieldOf(f.tbl, t6);
    IntFieldOf(f.frame, t7);
    HexFieldOf(f.index, t8);
    HexFieldOf(f.dimension, t9);
    HexFieldOf(f.size, f.ctxId);
  }

  /** A 32-bit class printed as an `unsigned` pattern reads back as itself. */
  lemma ClassRoundTrip(c: int)
    requires IsI32(c)
    ensures I32(U32(c)) == c
  {
    if c < 0 {
      ModUnique(c, TWO_32, -1, c + TWO_32);
      assert U32(c) == c + TWO_32;
      ModUnique(c + TWO_32, TWO_32, 0, c + TWO_32);
    }
  }

  /** The symbol id2symbol should give back for the ID of `s`: the same symbol with every
      STACK_TOP_FRAME replaced by the top frame. */
  function Written(s: SvcSym, topFrame: int): (w: SvcSym)
    ensures w.PtrSym? == s.PtrSym?
  {
    match s
    case PtrSym(size, b) => PtrSym(size, Written(b, topFrame))
    case PlainSym(_, _, _, _, _, _, _, _, _) => s.(frame := IdFrame(s.frame, topFrame))
  }

  /** The lookups know everything the ID refers to: the context, the frame written, the file,
      the object and a table index below the section count. */
  predicate Consistent(s: SvcSym, topFrame: int, env: Lookups) {
    match s
    case PtrSym(_, b) => Consistent(b, topFrame, env)
    case PlainSym(_, file, obj, tbl, fr, _, _, _, ctx) =>
      && ctx in env.contexts && FrameOk(ctx, IdFrame(fr, topFrame), env)
      && (file.Some? ==>
            && file.value in env.files
            && (obj.Some? ==> obj.value in env.files[file.value].objects)
            && (tbl.Some? ==> tbl.value < env.files[file.value].symSectionsCnt))
  }

  /** No text symbol2id prints for `s` is cut by the buffer. */
  predicate Untruncated(s: SvcSym, topFrame: int) {
    match s
    case PtrSym(size, b) => |PtrIdText(size, IdText(b, topFrame))| <= 255 && Untruncated(b, topFrame)
    case PlainSym(_, _, _, _, _, _, _, _, _) => |"SYM" + FieldsText(FieldsOf(s, topFrame))| <= 255
  }

  /** id2symbol(symbol2id(s)) gives back `s`, with the top frame written in, whenever no ID
      was cut and the lookups know what it refers to. */
  lemma {:induction false} IdRoundTrip(s: SvcSym, topFrame: int, env: Lookups)
    requires WellFormed(s) && IsI32(topFrame) && Untruncated(s, topFrame) && Consistent(s, topFrame, env)
    ensures Decode(IdText(s, topFrame), env) == Ok(Written(s, topFrame))
  {
    match s
    case PtrSym(size, b) =>
      PtrStep(s, topFrame, env);
      IdRoundTrip(b, topFrame, env);
    case PlainSym(_, _, _, _, _, _, _, _, _) =>
      PlainRoundTrip(s, topFrame, env);
  }

  /** An untruncated "PTR" ID decodes to its size over whatever its base's ID decodes to. */
  lemma PtrStep(s: SvcSym, topFrame: int, env: Lookups)
    requires s.PtrSym? && IsU64(s.size)
    requires |PtrIdText(s.size, IdText(s.base, topFrame))| <= 255
    ensures Decode(IdText(s, topFrame), env)
            == match Decode(IdText(s.base, topFrame), env)
               case Fail(e) => Fail(e)
               case Ok(b) => Ok(PtrSym(s.size, b))
  {
    var id := IdText(s, topFrame);
    PtrText(s, topFrame);
    HexFieldOf(s.size, IdText(s.base, topFrame));
    DecodePtr(id, env);
  }

  /** An untruncated "PTR" ID: the prefix, then the size and the base's ID. */
  lemma PtrText(s: SvcSym, topFrame: int)
    requires s.PtrSym?
    requires |PtrIdText(s.size, IdText(s.base, topFrame))| <= 255
    ensures HasPrefix(IdText(s, topFrame), "PTR")
    ensures IdText(s, topFrame)[3..] == Hex(s.size) + "." + IdText(s.base, topFrame)
  {
    assert IdText(s, topFrame) == PtrIdText(s.size, IdText(s.base, topFrame));
  }

  /** The "PTR" branch of id2symbol. */
  lemma DecodePtr(id: string, env: Lookups)
    requires HasPrefix(id, "PTR")
    ensures Decode(id, env)
            == match Decode(HexField(id[3..]).1, env)
               case Fail(e) => Fail(e)
               case Ok(b) => Ok(PtrSym(HexField(id[3..]).0, b))
  {
  }

  lemma PlainRoundTrip(s: SvcSym, topFrame: int, env: Lookups)
    requires s.PlainSym? && WellFormed(s) && IsI32(topFrame)
    requires Untruncated(s, topFrame) && Consistent(s, topFrame, env)
    ensures Decode(IdText(s, topFrame), env) == Ok(Written(s, topFrame))
  {
    var f := FieldsOf(s, topFrame);
    var id := IdText(s, topFrame);
    assert id == "SYM" + FieldsText(f);
    assert HasPrefix(id, "SYM") && !HasPrefix(id, "PTR") && id[3..] == FieldsText(f);
    ParseFieldsText(f);
    DecodeSym(id, env);
    ResolveFields(s, topFrame, env);
  }

  /** The "SYM" branch of id2symbol. */
  lemma DecodeSym(id: string, env: Lookups)
    requires HasPrefix(id, "SYM")
    ensures Decode(id, env) == Resolve(ParseFields(id[3..]), env)
  {
    assert !HasPrefix(id, "PTR");
  }

  /** Resolving the printed fields gives back the symbol. */
  lemma ResolveFields(s: SvcSym, topFrame: int, env: Lookups)
    requires s.PlainSym? && WellFormed(s) && IsI32(topFrame) && Consistent(s, topFrame, env)
    ensures Resolve(FieldsOf(s, topFrame), env) == Ok(Written(s, topFrame))
  {
    var f := FieldsOf(s, topFrame);
    ClassRoundTrip(s.symClass);
    var plain := PlainSym(I32(f.cls), None, None, None, f.frame, U32(f.index), U32(f.dimension),
                          f.size, f.ctxId);
    assert plain == s.(frame := IdFrame(s.frame, topFrame), file := None, obj := None, tbl := None);
    if s.file.Some? {
      AgentSymbolId.MtimeRoundTrip(s.file.value.mtime);
      assert FileKey(f.dev, f.ino, I64(f.mtime)) == s.file.value;
      if s.tbl.Some? {
        assert U32(f.tbl) == s.tbl.value + 1;
      } else {
        assert U32(f.tbl) == 0;
      }
    }
  }

  /** The shortcut of id2symbol: a "SYM" ID whose file fields are all zero needs no file; it
      succeeds once its context and frame are known, without object or table. */
  lemma NoFileShortcut(id: string, env: Lookups)
    requires HasPrefix(id, "SYM")
    requires var f := ParseFields(id[3..]);
             f.dev == 0 && f.ino == 0 && f.mtime == 0 && f.ctxId in env.contexts
             && FrameOk(f.ctxId, f.frame, env)
    ensures Decode(id, env).Ok? && Decode(id, env).value.file.None?
  {
    assert !HasPrefix(id, "PTR");
  }
}
