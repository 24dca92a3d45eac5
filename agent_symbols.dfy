/** Classification and address arithmetic of the agent's ELF/DWARF symbol reader: the
    DWARF tag and ELF symbol type tables, the lookup of the ELF symbol covering an address
    (with its synthetic `.plt` entries), the instruction-set range of `get_context_isa`, and
    the length of an array index. DWARF and ELF objects are plain records here; what the
    reader would fetch from its caches is part of the input. */
module AgentSymbols {
  import opened Base

  /** The DWARF tags `object2symbol` names (DWARF 1 tags included); any other tag is
      `OtherTag`. */
  datatype Tag =
    | GlobalSubroutine | InlinedSubroutine | Subroutine | Subprogram | EntryPoint
    | ArrayType | ClassType | EnumerationType | PointerType | ReferenceType | ModPointer
    | ModReference | StringType | StructureType | SubroutineType | UnionType
    | PtrToMemberType | SetType | SubrangeType | BaseType | FundType | FileType | PackedType
    | ThrownType | ConstType | VolatileType | RestrictType | InterfaceType | UnspecifiedType
    | MutableType | SharedType | Typedef | TemplateTypeParam
    | GlobalVariable | Inheritance | Member | FormalParameter | UnspecifiedParameters
    | LocalVariable | Variable
    | Constant | Enumerator
    | CompileUnit | PartialUnit
    | LexicalBlock | WithStmt | TryBlock | CatchBlock
    | Namespace
    | OtherTag(code: nat)

  /** SYM_CLASS_*; a freshly allocated symbol is zeroed, which is SYM_CLASS_UNKNOWN. */
  datatype SymClass =
    | UnknownClass | ValueClass | ReferenceClass | FunctionClass | TypeClass | CompUnitClass
    | BlockClass | NamespaceClass

  predicate IsFunctionTag(t: Tag) {
    t.GlobalSubroutine? || t.InlinedSubroutine? || t.Subroutine? || t.Subprogram? || t.EntryPoint?
  }

  /** The aggregate types whose symbols `symbol_priority` ranks one lower. */
  predicate IsCompositeTag(t: Tag) {
    t == ClassType || t == StructureType || t == UnionType || t == EnumerationType
  }

  /** The switch of object2symbol: the symbol class of a DWARF entry. */
  function TagClass(t: Tag): (c: SymClass)
    ensures IsFunctionTag(t) <==> c == FunctionClass
  {
    match t
    case GlobalSubroutine | InlinedSubroutine | Subroutine | Subprogram | EntryPoint =>
      FunctionClass
    case ArrayType | ClassType | EnumerationType | PointerType | ReferenceType | ModPointer
      | ModReference | StringType | StructureType | SubroutineType | UnionType
      | PtrToMemberType | SetType | SubrangeType | BaseType | FundType | FileType | PackedType
      | ThrownType | ConstType | VolatileType | RestrictType | InterfaceType | UnspecifiedType
      | MutableType | SharedType | Typedef | TemplateTypeParam =>
      TypeClass
    case GlobalVariable | Inheritance | Member | FormalParameter | UnspecifiedParameters
      | LocalVariable | Variable =>
      ReferenceClass
    case Constant | Enumerator => ValueClass
    case CompileUnit | PartialUnit => CompUnitClass
    case LexicalBlock | WithStmt | TryBlock | CatchBlock => BlockClass
    case Namespace => NamespaceClass
    case OtherTag(_) => UnknownClass
  }

  /** Every tag the switch names gets a class; only the others stay unknown. The aggregate
      types ranked lower by `symbol_priority` are all classified as types. */
  lemma TagClassTotal(t: Tag)
    ensures TagClass(t) == UnknownClass <==> t.OtherTag?
    ensures IsCompositeTag(t) ==> TagClass(t) == TypeClass
  {
  }

  /** The ELF symbol types the reader tells apart (STT_*). */
  datatype SymType = SttNoType | SttObject | SttFunc | SttGnuIfunc | SttOther(code: nat)

  /** elf_tcf_symbol: functions (and untyped symbols in an allocated section) are functions,
      data objects are references, everything else is a value. */
  function ElfClass(t: SymType, inAllocSection: bool): (c: SymClass)
    ensures c == FunctionClass <==> t == SttFunc || t == SttGnuIfunc || (t == SttNoType && inAllocSection)
    ensures c == ReferenceClass <==> t == SttObject
    ensures c == FunctionClass || c == ReferenceClass || c == ValueClass
  {
    match t
    case SttNoType => if inAllocSection then FunctionClass else ValueClass
    case SttFunc | SttGnuIfunc => FunctionClass
    case SttObject => ReferenceClass
    case SttOther(_) => ValueClass
  }

  /** is_valid_elf_symbol: functions, data objects and untyped symbols other than the `$`
      mapping symbols. */
  function IsValidElfSymbol(t: SymType, name: Option<string>): (ok: bool)
    ensures ok ==> t == SttNoType || t == SttFunc || t == SttObject
  {
    match t
    case SttNoType => !(name.Some? && |name.value| > 0 && name.value[0] == '$')
    case SttFunc | SttObject => true
    case _ => false
  }

  /** A symbol the address lookup accepts is a function or a data reference, unless it is an
      untyped symbol outside allocated memory. */
  lemma ValidSymbolClass(t: SymType, name: Option<string>, inAlloc: bool)
    requires IsValidElfSymbol(t, name)
    ensures ElfClass(t, inAlloc) == ValueClass <==> t == SttNoType && !inAlloc
  {
  }

  /** One entry of an ELF symbol table, as unpacked by the reader. */
  datatype ElfSym = ElfSym(symType: SymType, name: Option<string>, value: nat, size: nat, index: nat)

  /** The section an address falls in, and its file. */
  datatype Section = Section(addr: nat, size: nat, isPlt: bool, relocatable: bool)

  /** What find_by_addr_in_sym_tables finds: a table entry, a synthetic `.plt` entry (its
      index, first-entry size and entry size), or nothing. */
  datatype AddrHit = SymHit(index: nat) | PltHit(index: nat, first: nat, entry: nat) | NoHit

  /** The address of a symbol as the lookup computes it: relative to its section in
      relocatable files. */
  function SymAddr(s: ElfSym, sec: Section): (a: nat)
    requires IsU64(s.value) && IsU64(sec.addr)
    ensures IsU64(a)
    ensures !sec.relocatable ==> a == s.value
  {
    if sec.relocatable then U64(s.value + sec.addr) else s.value
  }

  /** A valid symbol covers the link-time address when the address lies below its end, or when
      it is a label (size 0). */
  predicate Covers(s: ElfSym, sec: Section, lt: nat)
    requires IsU64(s.value) && IsU64(s.size) && IsU64(sec.addr)
  {
    U64(SymAddr(s, sec) + s.size) > lt || s.size == 0
  }

  predicate TableOk(cands: seq<ElfSym>, sec: Section)
  {
    IsU64(sec.addr) && forall i :: 0 <= i < |cands| ==> IsU64(cands[i].value) && IsU64(cands[i].size)
  }

  /** The first valid entry, walking from the symbol at the address towards lower ones. */
  function FirstValid(cands: seq<ElfSym>): (k: int)
    ensures -1 <= k < |cands|
    ensures k >= 0 ==> IsValidElfSymbol(cands[k].symType, cands[k].name)
    ensures forall i :: 0 <= i < |cands| && (k < 0 || i < k) ==>
      !IsValidElfSymbol(cands[i].symType, cands[i].name)
  {
    if cands == [] then -1
    else if IsValidElfSymbol(cands[0].symType, cands[0].name) then 0
    else var k := FirstValid(cands[1..]); if k < 0 then -1 else k + 1
  }

  /** find_by_addr_in_sym_tables for a link-time address `lt` in section `sec`: `cands` are
      the table entries from the one at `lt` downwards; `plt` holds the file's `.plt` entry
      sizes (first, entry) when the file reports them. The first valid entry decides: it is
      the hit if it covers `lt`, and otherwise nothing is found. Only when no entry is valid
      does a `.plt` section yield a synthetic entry. */
  function FindByAddr(cands: seq<ElfSym>, sec: Section, lt: nat, plt: Option<(nat, nat)>): (h: AddrHit)
    requires TableOk(cands, sec) && IsU64(lt)
    requires plt.Some? ==> IsU32(plt.value.0) && IsU32(plt.value.1)
  {
    var k := FirstValid(cands);
    if k >= 0 then
      if Covers(cands[k], sec, lt) then SymHit(cands[k].index) else NoHit
    else if sec.isPlt && plt.Some? then
      match PltIndex(lt, sec.addr, plt.value.0, plt.value.1)
      case Some(i) => PltHit(i, plt.value.0, plt.value.1)
      case None => NoHit
    else NoHit
  }

  /** The lookup hits a table entry exactly when the first valid entry covers the address, and
      falls back to the `.plt` only when there is no valid entry at all. */
  lemma FindByAddrFirstValid(cands: seq<ElfSym>, sec: Section, lt: nat, plt: Option<(nat, nat)>)
    requires TableOk(cands, sec) && IsU64(lt)
    requires plt.Some? ==> IsU32(plt.value.0) && IsU32(plt.value.1)
    ensures var h := FindByAddr(cands, sec, lt, plt);
      && (h.SymHit? <==> exists k :: 0 <= k < |cands| && FirstValid(cands) == k && Covers(cands[k], sec, lt))
      && (h.SymHit? ==> h.index == cands[FirstValid(cands)].index)
      && (h.PltHit? ==> FirstValid(cands) < 0 && sec.isPlt)
  {
    var k := FirstValid(cands);
    if k >= 0 && Covers(cands[k], sec, lt) {
      assert 0 <= k < |cands| && FirstValid(cands) == k && Covers(cands[k], sec, lt);
    }
  }

  /** The synthetic `.plt` index: made only when the entry size is positive and `lt` is not
      below the first regular entry; `(unsigned)((lt - sec - first) / entry)`. */
  function PltIndex(lt: nat, secAddr: nat, first: nat, entry: nat): (r: Option<nat>)
    requires IsU64(lt) && IsU64(secAddr) && IsU32(first) && IsU32(entry)
    ensures r.Some? <==> lt >= U64(secAddr + first) && entry > 0
  {
    if lt >= U64(secAddr + first) && entry > 0 then Some(U32(U64(lt - secAddr - first) / entry))
    else None
  }

  /** get_location_info for a `.plt` symbol: `tbl->addr + cardinal + index * dimension`, the
      product in `unsigned` arithmetic. */
  function PltAddress(secAddr: nat, first: nat, index: nat, entry: nat): (a: nat)
    requires IsU64(secAddr) && IsU32(first) && IsU32(index) && IsU32(entry)
    ensures IsU64(a)
  {
    U64(secAddr + first + U32(index * entry))
  }

  lemma DivBounds(off: nat, entry: nat)
    requires entry > 0
    ensures off - entry < (off / entry) * entry <= off
  {
  }

  /** Within a `.plt` section smaller than 4 GiB, the entry made for `lt` gives back an address
      in (lt - entry, lt]: the start of the entry that contains `lt`. */
  lemma PltRoundTrip(lt: nat, secAddr: nat, first: nat, entry: nat)
    requires IsU64(lt) && IsU64(secAddr) && IsU32(first) && IsU32(entry) && entry > 0
    requires secAddr + first <= lt && lt - secAddr - first < TWO_32
    ensures PltIndex(lt, secAddr, first, entry).Some?
    ensures var i := PltIndex(lt, secAddr, first, entry).value;
      lt - entry < PltAddress(secAddr, first, i, entry) <= lt
  {
    var off := lt - secAddr - first;
    var i := PltIndexIs(lt, secAddr, first, entry);
    DivBounds(off, entry);
    var p := i * entry;
    assert off - entry < p <= off;
    PltAddressIs(secAddr, first, i, entry, p);
  }

  /** Below the section end, the index is the plain quotient of the offset. */
  lemma PltIndexIs(lt: nat, secAddr: nat, first: nat, entry: nat) returns (i: nat)
    requires IsU64(lt) && IsU64(secAddr) && IsU32(first) && IsU32(entry) && entry > 0
    requires secAddr + first <= lt && lt - secAddr - first < TWO_32
    ensures i == (lt - secAddr - first) / entry && IsU32(i)
    ensures PltIndex(lt, secAddr, first, entry) == Some(i)
  {
    var off := lt - secAddr - first;
    assert U64(secAddr + first) == secAddr + first;
    assert U64(off) == off;
    i := off / entry;
    QuotientAtMost(off, entry);
  }

  lemma MulAtLeast(i: nat, e: nat)
    requires e >= 1
    ensures i <= i * e
  {
    var k: nat := e - 1;
    var ik: nat := i * k;
    assert i * e == i + i * k;
  }

  lemma QuotientAtMost(a: nat, b: nat)
    requires b > 0
    ensures a / b <= a
  {
    var q := a / b;
    assert q * b <= a;
    MulAtLeast(q, b);
  }

  /** An address that stays within 32-bit product and 64-bit sum is not wrapped. */
  lemma PltAddressIs(secAddr: nat, first: nat, i: nat, entry: nat, p: nat)
    requires IsU64(secAddr) && IsU32(first) && IsU32(i) && IsU32(entry)
    requires p == i * entry && p < TWO_32 && secAddr + first + p < TWO_64
    ensures PltAddress(secAddr, first, i, entry) == secAddr + first + p
  {
    assert U32(i * entry) == p;
  }

  // ---------------------------------------------------------------------------------------
  // get_context_isa

  /** EM_ARM in the ELF header's machine field. */
  const EM_ARM: nat := 40

  /** The instruction set named after the ELF machine, for files that are not ARM. */
  function MachineIsa(machine: nat): (isa: Option<string>)
    ensures machine == EM_ARM ==> isa == None
  {
    match machine
    case 1 => Some("M32")
    case 2 => Some("SPARC")
    case 3 => Some("386")
    case 4 => Some("68K")
    case 5 => Some("88K")
    case 7 => Some("860")
    case 8 => Some("MIPS")
    case 20 => Some("PPC")
    case 21 => Some("PPC64")
    case 42 => Some("SH")
    case 43 => Some("SPARCV9")
    case 50 => Some("IA_64")
    case 51 => Some("MIPS_X")
    case 52 => Some("COLDFIRE")
    case 62 => Some("X86_64")
    case 189 => Some("MicroBlaze")
    case 87 => Some("V850")
    case _ => None
  }

  /** The ARM mapping symbols and the instruction set each one starts. */
  function MappingIsa(name: string): (isa: Option<string>)
    ensures isa.Some? ==> |name| > 0 && name[0] == '$'
  {
    if name == "$a" then Some("ARM")
    else if name == "$t" then Some("Thumb")
    else if name == "$t.x" then Some("ThumbEE")
    else if name == "$d" || name == "$d.realdata" then Some("Data")
    else None
  }

  predicate IsMarker(s: ElfSym) {
    s.name.Some? && |s.name.value| > 0 && s.name.value[0] == '$'
  }

  /** A section's symbols in address order and the position of the symbol at or below the
      looked-up address (-1 when there is none). */
  datatype SectionSyms = SectionSyms(sec: Section, syms: seq<ElfSym>, at: int)

  predicate SymsOk(t: SectionSyms) {
    && -1 <= t.at < |t.syms| && IsU64(t.sec.addr) && IsU64(t.sec.size)
    && forall i :: 0 <= i < |t.syms| ==> IsU64(t.syms[i].value)
  }

  /** The first `$` symbol after position `i`, if any. */
  function NextMarker(syms: seq<ElfSym>, i: nat): (j: int)
    requires i <= |syms|
    ensures j == -1 || i <= j < |syms|
    ensures j >= 0 ==> IsMarker(syms[j])
    ensures forall k :: i <= k < |syms| && (j < 0 || k < j) ==> !IsMarker(syms[k])
    decreases |syms| - i
  {
    if i == |syms| then -1
    else if IsMarker(syms[i]) then i
    else NextMarker(syms, i + 1)
  }

  /** The ARM part of get_context_isa, from the symbol at the address downwards: the nearest
      recognised mapping symbol starts the range, and the next `$` symbol after it (or the end
      of the section) ends it. */
  function ArmIsa(t: SectionSyms, i: int): (r: Option<(string, nat, nat)>)
    requires SymsOk(t) && -1 <= i <= t.at
    ensures r.Some? ==> r.value.0 in {"ARM", "Thumb", "ThumbEE", "Data"} && IsU64(r.value.1) && IsU64(r.value.2)
    decreases i + 1
  {
    if i < 0 then None
    else
      var s := t.syms[i];
      if IsMarker(s) && MappingIsa(s.name.value).Some? then
        var start := SymAddr(s, t.sec);
        var j := NextMarker(t.syms, i + 1);
        var size := if j < 0 then U64(t.sec.addr + t.sec.size - start)
                    else U64(SymAddr(t.syms[j], t.sec) - start);
        Some((MappingIsa(s.name.value).value, start, size))
      else ArmIsa(t, i - 1)
  }

  /** A `$` symbol whose name is one of the mapping symbols. */
  predicate Recognised(s: ElfSym) {
    IsMarker(s) && MappingIsa(s.name.value).Some?
  }

  /** No recognised mapping symbol lies strictly above `k` and at or below `i`. */
  predicate NoneAbove(syms: seq<ElfSym>, k: int, i: int) {
    forall m :: k < m <= i && 0 <= m < |syms| ==> !Recognised(syms[m])
  }

  /** ArmIsa finds a range exactly when a recognised mapping symbol lies at or below the
      address, and then it is the nearest such symbol that names the ISA and starts the
      range. */
  lemma {:induction false} ArmIsaNearest(t: SectionSyms, i: int)
    requires SymsOk(t) && -1 <= i <= t.at
    ensures ArmIsa(t, i).Some? <==> exists k :: 0 <= k <= i && Recognised(t.syms[k])
    ensures ArmIsa(t, i).Some? ==>
      exists k :: 0 <= k <= i && Recognised(t.syms[k]) && NoneAbove(t.syms, k, i)
        && ArmIsa(t, i).value.0 == MappingIsa(t.syms[k].name.value).value
        && ArmIsa(t, i).value.1 == SymAddr(t.syms[k], t.sec)
    decreases i + 1
  {
    if i >= 0 {
      var s := t.syms[i];
      if Recognised(s) {
        assert NoneAbove(t.syms, i, i);
      } else {
        ArmIsaNearest(t, i - 1);
        if ArmIsa(t, i).Some? {
          var k :| 0 <= k <= i - 1 && Recognised(t.syms[k]) && NoneAbove(t.syms, k, i - 1)
            && ArmIsa(t, i - 1).value.0 == MappingIsa(t.syms[k].name.value).value
            && ArmIsa(t, i - 1).value.1 == SymAddr(t.syms[k], t.sec);
          assert NoneAbove(t.syms, k, i);
        }
      }
    }
  }

  /** The 64 KiB-aligned window around `ip`: `ip & ~(0x10000 - 1)`. */
  function WindowStart(ip: nat): (w: nat)
    ensures w <= ip < w + 0x10000 && w % 0x10000 == 0
  {
    ip - ip % 0x10000
  }

  /** A memory-map region: start and size. */
  datatype Region = Region(addr: nat, size: nat)

  predicate Inside(b: nat, addr: nat, size: nat) {
    addr < b < addr + size
  }

  /** No start or end of the first `n` regions falls strictly inside [addr, addr + size). */
  ghost predicate NoBoundaryInside(regions: seq<Region>, n: nat, addr: nat, size: nat)
    requires n <= |regions|
  {
    forall i :: 0 <= i < n ==>
      !Inside(regions[i].addr, addr, size) && !Inside(U64(regions[i].addr + regions[i].size), addr, size)
  }

  /** The narrowing loop of get_context_isa, all in 64-bit unsigned arithmetic: starting from
      the 64 KiB window around `ip`, each region boundary above `ip` cuts the end and each one
      at or below `ip` cuts the start. The range keeps `ip`, stays in the window, and (below
      the last window of the address space) ends up crossing no region boundary. */
  method NarrowRange(ip: nat, regions: seq<Region>) returns (addr: nat, size: nat)
    requires IsU64(ip)
    requires forall i :: 0 <= i < |regions| ==> IsU64(regions[i].addr) && IsU64(regions[i].size)
    ensures addr <= ip < addr + size
    ensures WindowStart(ip) <= addr && addr + size <= WindowStart(ip) + 0x10000
    ensures WindowStart(ip) + 0x10000 < TWO_64 ==> NoBoundaryInside(regions, |regions|, addr, size)
  {
    size := 0x10000;
    addr := WindowStart(ip);
    var i := 0;
    while i < |regions|
      invariant 0 <= i <= |regions|
      invariant addr <= ip < addr + size
      invariant WindowStart(ip) <= addr && addr + size <= WindowStart(ip) + 0x10000
      invariant WindowStart(ip) + 0x10000 < TWO_64 ==> NoBoundaryInside(regions, i, addr, size)
    {
      var x := regions[i].addr;
      var y := U64(regions[i].addr + regions[i].size);
      addr, size := Narrow(ip, x, addr, size);
      addr, size := Narrow(ip, y, addr, size);
      i := i + 1;
    }
  }

  /** The two cuts one region boundary `b` makes: `if (b > ip && b < addr + size) size =
      b - addr;` and `if (b <= ip && b > addr) { size = addr + size - b; addr = b; }`. */
  method Narrow(ip: nat, b: nat, addr0: nat, size0: nat) returns (addr: nat, size: nat)
    requires IsU64(ip) && IsU64(b) && addr0 <= ip < addr0 + size0 <= TWO_64
    ensures addr0 <= addr <= ip < addr + size <= addr0 + size0
    ensures addr0 + size0 < TWO_64 ==> !Inside(b, addr, size)
    ensures addr0 + size0 == TWO_64 ==> addr + size == TWO_64
  {
    addr, size := addr0, size0;
    if b > ip && b < U64(addr + size) {
      size := U64(b - addr);
    }
    if b <= ip && b > addr {
      size := U64(U64(addr + size) - b);
      if addr + size0 == TWO_64 {
        assert U64(addr + size0) == 0 by {
          assert addr + size0 == TWO_64 * 1 + 0;
        }
        assert U64(0 - b) == TWO_64 - b by {
          assert 0 - b == TWO_64 * -1 + (TWO_64 - b);
        }
      }
      addr := b;
    }
  }

  // ---------------------------------------------------------------------------------------
  // Array bounds

  /** The source languages of a compilation unit that get_default_lower_bound names. */
  datatype Language =
    | Ada83 | Ada95 | Cobol74 | Cobol85 | Fortran77 | Fortran90 | Fortran95 | Modula2
    | Pascal83 | Pli | OtherLanguage(code: nat)

  /** get_default_lower_bound: arrays start at 1 in Ada, COBOL, Fortran, Modula-2, Pascal and
      PL/I, and at 0 otherwise. */
  function DefaultLowerBound(lang: Language): (b: nat)
    ensures b == 0 <==> lang.OtherLanguage?
    ensures b <= 1
  {
    if lang.OtherLanguage? then 0 else 1
  }

  /** The attributes get_array_index_length reads from an index entry. */
  datatype IndexEntry = IndexEntry(
    tag: Tag, lang: Language, count: Option<nat>, upper: Option<nat>, lower: Option<nat>,
    children: nat)

  predicate IndexOk(e: IndexEntry) {
    && (e.count.Some? ==> IsU64(e.count.value))
    && (e.upper.Some? ==> IsU64(e.upper.value))
    && (e.lower.Some? ==> IsU64(e.lower.value))
  }

  /** get_array_index_length: AT_count if present; else `upper + 1 - lower` in 64-bit
      unsigned arithmetic, with the language's default lower bound; else, for an enumeration,
      the number of its enumerators; else 0. */
  function ArrayIndexLength(e: IndexEntry): (n: nat)
    requires IndexOk(e)
    ensures e.count.Some? ==> n == e.count.value
    ensures e.count.None? && e.upper.None? ==> n == if e.tag == EnumerationType then e.children else 0
  {
    if e.count.Some? then e.count.value
    else if e.upper.Some? then
      var y := if e.lower.Some? then e.lower.value else DefaultLowerBound(e.lang);
      U64(e.upper.value + 1 - y)
    else if e.tag == EnumerationType then e.children
    else 0
  }

  /** With bounds that do not run backwards and an upper bound below 2^64 - 1, the length is
      the number of indices from lower to upper; without a lower bound, C arrays [0..n-1] and
      Fortran arrays [1..n] both have n elements. */
  lemma ArrayIndexLengthBounds(e: IndexEntry)
    requires IndexOk(e) && e.count.None? && e.upper.Some? && e.upper.value + 1 < TWO_64
    ensures e.lower.Some? && e.lower.value <= e.upper.value + 1 ==>
      ArrayIndexLength(e) == e.upper.value + 1 - e.lower.value
    ensures e.lower.None? && e.lang.OtherLanguage? ==> ArrayIndexLength(e) == e.upper.value + 1
    ensures e.lower.None? && !e.lang.OtherLanguage? ==> ArrayIndexLength(e) == e.upper.value
  {
  }

  /** An upper bound of 2^64 - 1 with lower bound 0 wraps to length 0. */
  lemma ArrayIndexLengthWraps()
    ensures ArrayIndexLength(IndexEntry(ArrayType, OtherLanguage(1), None, Some(TWO_64 - 1), Some(0), 0)) == 0
  {
    assert U64(TWO_64) == 0 by {
      assert TWO_64 == TWO_64 * 1 + 0;
    }
  }
}
