/** The ELF side of the value-add server's symbol reader: the address of an ELF symbol, the
    lookups in the ELF symbol tables that succeed only on a unique match, the length of an
    array dimension and the constant value of a symbol. ELF tables, DWARF objects and the
    attribute values the reader would evaluate are inputs. */
module ServiceSymbols {
  import opened Base
  import S = AgentSymbols
  import opened ServiceSymbolId
  import Digits

  /** Special section indexes of ELF symbols. */
  const SHN_UNDEF: nat := 0
  const SHN_ABS: nat := 0xfff1
  const SHN_COMMON: nat := 0xfff2

  /** The symbol classes of the Symbols service the reader assigns here. */
  const SYM_CLASS_REFERENCE: int := 2
  const SYM_CLASS_FUNCTION: int := 3
  const SYM_CLASS_TYPE: int := 4

  /** One ELF symbol as `unpack_elf_symbol_info` presents it, with the address of the
      section its section index names. */
  datatype SymInfo = SymInfo(symType: S.SymType, name: string, value: nat, size: nat, shndx: nat,
                             secAddr: nat)

  // ---- syminfo2address ----

  /** The symbols syminfo2address gives an address: data objects and functions that are
      defined, and in a relocatable file not common either. */
  predicate Addressable(info: SymInfo, isRel: bool) {
    && (info.symType == S.SttObject || info.symType == S.SttFunc)
    && info.shndx != SHN_UNDEF
    && !(isRel && info.shndx == SHN_COMMON)
  }

  /** syminfo2address on link-time addresses: the symbol's value, plus its section's address
      in a relocatable file unless the symbol is absolute (64-bit arithmetic). */
  function SymAddress(info: SymInfo, isRel: bool): (r: Result<nat>)
    requires IsU64(info.value)
    ensures r.Ok? <==> Addressable(info, isRel)
    ensures r.Fail? ==> r.error == ErrInvAddress
    ensures r.Ok? ==> IsU64(r.value)
    ensures r.Ok? && (!isRel || info.shndx == SHN_ABS) ==> r.value == info.value
    ensures r.Ok? && isRel && info.shndx != SHN_ABS && info.value + info.secAddr < TWO_64
            ==> r.value - info.value == info.secAddr
  {
    if !(info.symType == S.SttObject || info.symType == S.SttFunc) then Fail(ErrInvAddress)
    else if info.shndx == SHN_UNDEF then Fail(ErrInvAddress)
    else if !isRel then Ok(info.value)
    else if info.shndx == SHN_ABS then Ok(info.value)
    else if info.shndx == SHN_COMMON then Fail(ErrInvAddress)
    else Ok(U64(info.value + info.secAddr))
  }

  /** A symbol of a relocatable file whose value is an offset into its section gets an
      address inside that section. */
  lemma RelocatedInSection(info: SymInfo, secSize: nat)
    requires IsU64(info.value) && Addressable(info, true) && info.shndx != SHN_ABS
    requires info.value < secSize && info.secAddr + secSize <= TWO_64
    ensures SymAddress(info, true).Ok?
    ensures info.secAddr <= SymAddress(info, true).value < info.secAddr + secSize
  {
  }

  // ---- find_by_addr_in_sym_table ----

  /** The address test of the lookup: the symbol starts at `addr`, or covers it, its end
      computed in 64 bits. Without wrap-around this is [symAddr, symAddr + size), a
      zero-sized symbol covering its own address. */
  function AddrMatch(symAddr: nat, size: nat, addr: nat): (m: bool)
    ensures IsU64(symAddr) && IsU64(size) && symAddr + size < TWO_64 ==>
              (m <==> symAddr <= addr < symAddr + (if size == 0 then 1 else size))
  {
    symAddr == addr || (symAddr <= addr && U64(symAddr + size) > addr)
  }

  predicate AddrMatches(info: SymInfo, addr: nat, isRel: bool)
    requires IsU64(info.value)
  {
    SymAddress(info, isRel).Ok? && AddrMatch(SymAddress(info, isRel).value, U64(info.size), addr)
  }

  /** A symbol a lookup found: an entry of a symbol table (class FUNCTION for functions,
      REFERENCE for data objects) or a DWARF object. */
  datatype Hit = ElfHit(tbl: nat, index: nat, symClass: int) | ObjHit(id: nat)

  function ElfHitOf(m: nat, n: nat, info: SymInfo): (h: Hit)
    ensures h.ElfHit? && h.tbl == m && h.index == n
    ensures info.symType == S.SttFunc ==> h.symClass == SYM_CLASS_FUNCTION
    ensures info.symType == S.SttObject ==> h.symClass == SYM_CLASS_REFERENCE
  {
    ElfHit(m, n, if info.symType == S.SttFunc then SYM_CLASS_FUNCTION else SYM_CLASS_REFERENCE)
  }

  predicate ValuesOk(tables: seq<seq<SymInfo>>) {
    forall m, n :: 0 <= m < |tables| && 0 <= n < |tables[m]| ==> IsU64(tables[m][n].value)
  }

  /** The hits of table `m` from entry `n` on, in order. */
  function RowAddrHits(syms: seq<SymInfo>, m: nat, n: nat, addr: nat, isRel: bool): seq<Hit>
    requires forall j :: 0 <= j < |syms| ==> IsU64(syms[j].value)
    decreases |syms| - n
  {
    if n >= |syms| then []
    else (if AddrMatches(syms[n], addr, isRel) then [ElfHitOf(m, n, syms[n])] else [])
         + RowAddrHits(syms, m, n + 1, addr, isRel)
  }

  /** The hits of the tables from `m` on; each table is scanned from entry 1. */
  function AddrHits(tables: seq<seq<SymInfo>>, m: nat, addr: nat, isRel: bool): seq<Hit>
    requires ValuesOk(tables)
    decreases |tables| - m
  {
    if m >= |tables| then []
    else RowAddrHits(tables[m], m, 1, addr, isRel) + AddrHits(tables, m + 1, addr, isRel)
  }

  function Last(hs: seq<Hit>): Option<Hit> {
    if hs == [] then None else Some(hs[|hs| - 1])
  }

  /** find_by_addr_in_sym_table: every table, every entry after the null one; `res` is the
      last hit and the lookup succeeds when there was exactly one. */
  method FindByAddr(tables: seq<seq<SymInfo>>, addr: nat, isRel: bool) returns (found: bool, res: Option<Hit>)
    requires ValuesOk(tables)
    ensures found <==> |AddrHits(tables, 0, addr, isRel)| == 1
    ensures res == Last(AddrHits(tables, 0, addr, isRel))
  {
    var m := 0;
    var cnt := 0;
    res := None;
    ghost var seen: seq<Hit> := [];
    while m < |tables|
      invariant m <= |tables|
      invariant seen + AddrHits(tables, m, addr, isRel) == AddrHits(tables, 0, addr, isRel)
      invariant cnt == |seen| && res == Last(seen)
    {
      ghost var row := RowAddrHits(tables[m], m, 1, addr, isRel);
      var c, last := ScanTable(tables[m], m, addr, isRel);
      AddrHitsCons(tables, m, addr, isRel);
      Advance(seen, row, AddrHits(tables, m + 1, addr, isRel), AddrHits(tables, 0, addr, isRel));
      if last.Some? {
        res := last;
      }
      cnt := cnt + c;
      seen := seen + row;
      m := m + 1;
    }
    found := cnt == 1;
  }

  /** The inner loop of the lookup by address: the entries of one table after the null one. */
  method ScanTable(syms: seq<SymInfo>, m: nat, addr: nat, isRel: bool) returns (cnt: nat, last: Option<Hit>)
    requires forall j :: 0 <= j < |syms| ==> IsU64(syms[j].value)
    ensures cnt == |RowAddrHits(syms, m, 1, addr, isRel)|
    ensures last == Last(RowAddrHits(syms, m, 1, addr, isRel))
  {
    cnt := 0;
    last := None;
    ghost var seen: seq<Hit> := [];
    var n := 1;
    while n < |syms|
      invariant 1 <= n
      invariant seen + RowAddrHits(syms, m, n, addr, isRel) == RowAddrHits(syms, m, 1, addr, isRel)
      invariant cnt == |seen| && last == Last(seen)
    {
      var a := SymAddress(syms[n], isRel);
      ghost var h := ElfHitOf(m, n, syms[n]);
      ghost var part := if AddrMatches(syms[n], addr, isRel) then [h] else [];
      RowAddrHitsStep(syms, m, n, addr, isRel);
      Advance(seen, part, RowAddrHits(syms, m, n + 1, addr, isRel), RowAddrHits(syms, m, 1, addr, isRel));
      if a.Ok? && (a.value == addr || (a.value <= addr && U64(a.value + U64(syms[n].size)) > addr)) {
        last := Some(ElfHitOf(m, n, syms[n]));
        cnt := cnt + 1;
      }
      seen := seen + part;
      n := n + 1;
    }
    assert seen + [] == seen;
  }

  lemma RowAddrHitsStep(syms: seq<SymInfo>, m: nat, n: nat, addr: nat, isRel: bool)
    requires forall j :: 0 <= j < |syms| ==> IsU64(syms[j].value)
    requires n < |syms|
    ensures RowAddrHits(syms, m, n, addr, isRel)
         == (if AddrMatches(syms[n], addr, isRel) then [ElfHitOf(m, n, syms[n])] else [])
            + RowAddrHits(syms, m, n + 1, addr, isRel)
  {
  }

  lemma AddrHitsCons(tables: seq<seq<SymInfo>>, m: nat, addr: nat, isRel: bool)
    requires ValuesOk(tables) && m < |tables|
    ensures AddrHits(tables, m, addr, isRel)
         == RowAddrHits(tables[m], m, 1, addr, isRel) + AddrHits(tables, m + 1, addr, isRel)
  {
  }

  /** A scan loop has taken in `part`, the hits of one more step: the hits seen so far, then
      those still ahead, still make up the whole. */
  lemma Advance(seen: seq<Hit>, part: seq<Hit>, next: seq<Hit>, whole: seq<Hit>)
    requires seen + (part + next) == whole
    ensures (seen + part) + next == whole
    ensures |seen + part| == |seen| + |part|
    ensures Last(seen + part) == if part == [] then Last(seen) else Last(part)
  {
    AppendAssoc(seen, part, next);
    LastAppend(seen, part);
  }

  lemma LastAppend(a: seq<Hit>, b: seq<Hit>)
    ensures Last(a + b) == if b == [] then Last(a) else Last(b)
  {
    if b == [] {
      assert a + b == a;
    }
  }

  /** The hits of a table are exactly its matching entries after the null one. */
  lemma {:induction false} RowAddrHitsExact(syms: seq<SymInfo>, m: nat, n: nat, addr: nat, isRel: bool, h: Hit)
    requires forall j :: 0 <= j < |syms| ==> IsU64(syms[j].value)
    ensures h in RowAddrHits(syms, m, n, addr, isRel)
            <==> exists j :: n <= j < |syms| && AddrMatches(syms[j], addr, isRel) && h == ElfHitOf(m, j, syms[j])
    decreases |syms| - n
  {
    if n < |syms| {
      RowAddrHitsExact(syms, m, n + 1, addr, isRel, h);
      if h in RowAddrHits(syms, m, n, addr, isRel) && h !in RowAddrHits(syms, m, n + 1, addr, isRel) {
        assert AddrMatches(syms[n], addr, isRel) && h == ElfHitOf(m, n, syms[n]);
      }
    }
  }

  /** The lookup by address hits exactly the entries, after the null one of each table,
      whose address matches. */
  lemma {:induction false} AddrHitsExact(tables: seq<seq<SymInfo>>, m0: nat, addr: nat, isRel: bool, h: Hit)
    requires ValuesOk(tables)
    ensures h in AddrHits(tables, m0, addr, isRel)
            <==> exists m, j :: m0 <= m < |tables| && 1 <= j < |tables[m]|
                   && AddrMatches(tables[m][j], addr, isRel) && h == ElfHitOf(m, j, tables[m][j])
    decreases |tables| - m0
  {
    if m0 < |tables| {
      var row := RowAddrHits(tables[m0], m0, 1, addr, isRel);
      var rest := AddrHits(tables, m0 + 1, addr, isRel);
      AddrHitsExact(tables, m0 + 1, addr, isRel, h);
      RowAddrHitsExact(tables[m0], m0, 1, addr, isRel, h);
      if h in row {
        var j :| 1 <= j < |tables[m0]| && AddrMatches(tables[m0][j], addr, isRel) && h == ElfHitOf(m0, j, tables[m0][j]);
        assert m0 <= m0 < |tables|;
      }
      if exists m, j :: m0 <= m < |tables| && 1 <= j < |tables[m]|
           && AddrMatches(tables[m][j], addr, isRel) && h == ElfHitOf(m, j, tables[m][j]) {
        var m, j :| m0 <= m < |tables| && 1 <= j < |tables[m]|
          && AddrMatches(tables[m][j], addr, isRel) && h == ElfHitOf(m, j, tables[m][j]);
        if m == m0 {
          assert h in row;
        } else {
          assert h in rest;
        }
      }
    }
  }

  // ---- find_by_name_in_sym_table ----

  /** A DWARF object among the children of a compilation unit. */
  datatype DwObj = DwObj(id: nat, tag: S.Tag, name: Option<string>)

  /** A symbol table and, for the name looked up, the entries its hash chain visits. */
  datatype SymTable = SymTable(syms: seq<SymInfo>, chain: seq<nat>)

  predicate TablesOk(tables: seq<SymTable>) {
    forall m :: 0 <= m < |tables| ==>
      && (forall n :: 0 <= n < |tables[m].syms| ==> IsU64(tables[m].syms[n].value))
      && (forall k :: 0 <= k < |tables[m].chain| ==> tables[m].chain[k] < |tables[m].syms|)
  }

  /** The functions and variables the lookup accepts among a unit's children. */
  predicate NamedObj(o: DwObj, name: string) {
    && (o.tag == S.GlobalSubroutine || o.tag == S.GlobalVariable || o.tag == S.Subroutine
        || o.tag == S.Subprogram || o.tag == S.Variable)
    && o.name == Some(name)
  }

  /** The children of the unit covering an address that carry the name, in order. */
  function ObjHits(objs: seq<DwObj>, i: nat, name: string): seq<Hit>
    decreases |objs| - i
  {
    if i >= |objs| then []
    else (if NamedObj(objs[i], name) then [ObjHit(objs[i].id)] else []) + ObjHits(objs, i + 1, name)
  }

  /** What one entry of a hash chain adds: nothing unless it carries the name and has a
      non-zero address; then each function or variable of that name in the unit covering the
      address (`units` maps an address to the children of that unit), or the ELF symbol
      itself when there is none. */
  function EntryHits(info: SymInfo, m: nat, n: nat, name: string, units: map<nat, seq<DwObj>>,
                     isRel: bool): (hs: seq<Hit>)
    requires IsU64(info.value)
    ensures hs != [] <==> info.name == name && SymAddress(info, isRel).Ok? && SymAddress(info, isRel).value != 0
  {
    if info.name == name && SymAddress(info, isRel).Ok? && SymAddress(info, isRel).value != 0 then
      var addr := SymAddress(info, isRel).value;
      var hs := if addr in units then ObjHits(units[addr], 0, name) else [];
      if hs == [] then [ElfHitOf(m, n, info)] else hs
    else []
  }

  function ChainHits(t: SymTable, m: nat, k: nat, name: string, units: map<nat, seq<DwObj>>,
                     isRel: bool): seq<Hit>
    requires forall n :: 0 <= n < |t.syms| ==> IsU64(t.syms[n].value)
    requires forall j :: 0 <= j < |t.chain| ==> t.chain[j] < |t.syms|
    decreases |t.chain| - k
  {
    if k >= |t.chain| then []
    else EntryHits(t.syms[t.chain[k]], m, t.chain[k], name, units, isRel)
         + ChainHits(t, m, k + 1, name, units, isRel)
  }

  function NameHits(tables: seq<SymTable>, m: nat, name: string, units: map<nat, seq<DwObj>>,
                    isRel: bool): seq<Hit>
    requires TablesOk(tables)
    decreases |tables| - m
  {
    if m >= |tables| then []
    else ChainHits(tables[m], m, 0, name, units, isRel) + NameHits(tables, m + 1, name, units, isRel)
  }

  /** find_by_name_in_sym_table: every table, the hash chain of the name; `res` is the last
      hit and the lookup succeeds when there was exactly one. */
  method FindByName(tables: seq<SymTable>, name: string, units: map<nat, seq<DwObj>>, isRel: bool)
    returns (found: bool, res: Option<Hit>)
    requires TablesOk(tables)
    ensures found <==> |NameHits(tables, 0, name, units, isRel)| == 1
    ensures res == Last(NameHits(tables, 0, name, units, isRel))
  {
    var m := 0;
    var cnt := 0;
    res := None;
    ghost var seen: seq<Hit> := [];
    while m < |tables|
      invariant m <= |tables|
      invariant seen + NameHits(tables, m, name, units, isRel) == NameHits(tables, 0, name, units, isRel)
      invariant cnt == |seen| && res == Last(seen)
    {
      ghost var chain := ChainHits(tables[m], m, 0, name, units, isRel);
      var c, last := ScanChain(tables[m], m, name, units, isRel);
      NameHitsCons(tables, m, name, units, isRel);
      Advance(seen, chain, NameHits(tables, m + 1, name, units, isRel), NameHits(tables, 0, name, units, isRel));
      if last.Some? {
        res := last;
      }
      cnt := cnt + c;
      seen := seen + chain;
      m := m + 1;
    }
    found := cnt == 1;
  }

  lemma NameHitsCons(tables: seq<SymTable>, m: nat, name: string, units: map<nat, seq<DwObj>>,
                     isRel: bool)
    requires TablesOk(tables) && m < |tables|
    ensures NameHits(tables, m, name, units, isRel)
            == ChainHits(tables[m], m, 0, name, units, isRel) + NameHits(tables, m + 1, name, units, isRel)
  {
  }

  /** The walk along one table's hash chain. */
  method ScanChain(t: SymTable, m: nat, name: string, units: map<nat, seq<DwObj>>, isRel: bool)
    returns (cnt: nat, last: Option<Hit>)
    requires forall n :: 0 <= n < |t.syms| ==> IsU64(t.syms[n].value)
    requires forall j :: 0 <= j < |t.chain| ==> t.chain[j] < |t.syms|
    ensures cnt == |ChainHits(t, m, 0, name, units, isRel)|
    ensures last == Last(ChainHits(t, m, 0, name, units, isRel))
  {
    cnt := 0;
    last := None;
    ghost var seen: seq<Hit> := [];
    var k := 0;
    while k < |t.chain|
      invariant k <= |t.chain|
      invariant seen + ChainHits(t, m, k, name, units, isRel) == ChainHits(t, m, 0, name, units, isRel)
      invariant cnt == |seen| && last == Last(seen)
    {
      var n := t.chain[k];
      var c, r := ScanEntry(t.syms[n], m, n, name, units, isRel);
      ghost var entry := EntryHits(t.syms[n], m, n, name, units, isRel);
      ChainHitsCons(t, m, k, name, units, isRel);
      Advance(seen, entry, ChainHits(t, m, k + 1, name, units, isRel), ChainHits(t, m, 0, name, units, isRel));
      cnt := cnt + c;
      last := if r.Some? then r else last;
      seen := seen + entry;
      k := k + 1;
    }
    assert seen + [] == seen;
  }

  lemma ChainHitsCons(t: SymTable, m: nat, k: nat, name: string, units: map<nat, seq<DwObj>>,
                      isRel: bool)
    requires forall n :: 0 <= n < |t.syms| ==> IsU64(t.syms[n].value)
    requires forall j :: 0 <= j < |t.chain| ==> t.chain[j] < |t.syms|
    requires k < |t.chain|
    ensures ChainHits(t, m, k, name, units, isRel)
            == EntryHits(t.syms[t.chain[k]], m, t.chain[k], name, units, isRel)
               + ChainHits(t, m, k + 1, name, units, isRel)
  {
  }

  /** The body of the chain loop for one entry: how many hits it adds and the last of them. */
  method ScanEntry(info: SymInfo, m: nat, n: nat, name: string, units: map<nat, seq<DwObj>>,
                   isRel: bool) returns (cnt: nat, last: Option<Hit>)
    requires IsU64(info.value)
    ensures cnt == |EntryHits(info, m, n, name, units, isRel)|
    ensures last == Last(EntryHits(info, m, n, name, units, isRel))
  {
    cnt := 0;
    last := None;
    var a := SymAddress(info, isRel);
    if info.name == name && a.Ok? && a.value != 0 {
      var found := false;
      if a.value in units {
        cnt, last := ScanUnit(units[a.value], name);
        found := cnt > 0;
      }
      if !found {
        last := Some(ElfHitOf(m, n, info));
        cnt := cnt + 1;
      }
    }
  }

  /** The walk over the children of the unit covering the symbol's address. */
  method ScanUnit(objs: seq<DwObj>, name: string) returns (cnt: nat, last: Option<Hit>)
    ensures cnt == |ObjHits(objs, 0, name)|
    ensures last == Last(ObjHits(objs, 0, name))
  {
    cnt := 0;
    last := None;
    ghost var seen: seq<Hit> := [];
    var i := 0;
    while i < |objs|
      invariant i <= |objs|
      invariant seen + ObjHits(objs, i, name) == ObjHits(objs, 0, name)
      invariant cnt == |seen| && last == Last(seen)
    {
      ObjHitsAdvance(seen, objs, i, name);
      if NamedObj(objs[i], name) {
        var h := ObjHit(objs[i].id);
        last := Some(h);
        cnt := cnt + 1;
        seen := seen + [h];
      }
      i := i + 1;
    }
    assert seen + [] == seen;
  }

  /** One more child of the unit has been looked at. */
  lemma ObjHitsAdvance(seen: seq<Hit>, objs: seq<DwObj>, i: nat, name: string)
    requires i < |objs| && seen + ObjHits(objs, i, name) == ObjHits(objs, 0, name)
    ensures NamedObj(objs[i], name) ==>
              (seen + [ObjHit(objs[i].id)]) + ObjHits(objs, i + 1, name) == ObjHits(objs, 0, name)
    ensures !NamedObj(objs[i], name) ==> seen + ObjHits(objs, i + 1, name) == ObjHits(objs, 0, name)
  {
    var rest := ObjHits(objs, i + 1, name);
    var head := if NamedObj(objs[i], name) then [ObjHit(objs[i].id)] else [];
    assert ObjHits(objs, i, name) == head + rest;
    AppendAssoc(seen, head, rest);
  }

  lemma AppendAssoc(a: seq<Hit>, b: seq<Hit>, c: seq<Hit>)
    ensures a + (b + c) == (a + b) + c && (b == [] ==> a + (b + c) == a + c)
  {
  }

  /** Every hit of one entry is its ELF symbol or a function or variable of the name. */
  lemma {:induction false} ObjHitsNamed(objs: seq<DwObj>, i: nat, name: string, h: Hit)
    requires h in ObjHits(objs, i, name)
    ensures h.ObjHit? && exists j :: i <= j < |objs| && objs[j].id == h.id && NamedObj(objs[j], name)
    decreases |objs| - i
  {
    if i < |objs| {
      if h !in ObjHits(objs, i + 1, name) {
        assert objs[i].id == h.id && NamedObj(objs[i], name);
      } else {
        ObjHitsNamed(objs, i + 1, name, h);
      }
    }
  }

  /** What a hit of the name lookup is: the ELF symbol of a chain entry that carries the name
      and has a non-zero address, or a function or variable of that name in the unit covering
      such an address. */
  predicate NameHitOk(h: Hit, tables: seq<SymTable>, name: string, units: map<nat, seq<DwObj>>,
                      isRel: bool)
    requires TablesOk(tables)
  {
    match h
    case ElfHit(m, n, _) =>
      && m < |tables| && n < |tables[m].syms| && tables[m].syms[n].name == name
      && SymAddress(tables[m].syms[n], isRel).Ok? && SymAddress(tables[m].syms[n], isRel).value != 0
    case ObjHit(id) =>
      exists a, j :: a in units && 0 <= j < |units[a]| && units[a][j].id == id && NamedObj(units[a][j], name)
  }

  lemma EntryHitsOk(tables: seq<SymTable>, m: nat, n: nat, name: string, units: map<nat, seq<DwObj>>,
                    isRel: bool, h: Hit)
    requires TablesOk(tables) && m < |tables| && n < |tables[m].syms|
    requires h in EntryHits(tables[m].syms[n], m, n, name, units, isRel)
    ensures NameHitOk(h, tables, name, units, isRel)
  {
    var info := tables[m].syms[n];
    var addr := SymAddress(info, isRel).value;
    if addr in units && h in ObjHits(units[addr], 0, name) {
      ObjHitsNamed(units[addr], 0, name, h);
    }
  }

  lemma {:induction false} ChainHitsOk(tables: seq<SymTable>, m: nat, k: nat, name: string,
                                       units: map<nat, seq<DwObj>>, isRel: bool, h: Hit)
    requires TablesOk(tables) && m < |tables|
    requires h in ChainHits(tables[m], m, k, name, units, isRel)
    ensures NameHitOk(h, tables, name, units, isRel)
    decreases |tables[m].chain| - k
  {
    var n := ChainHitsIn(tables, m, k, name, units, isRel, h);
    if h in EntryHits(tables[m].syms[n], m, n, name, units, isRel) {
      EntryHitsOk(tables, m, n, name, units, isRel, h);
    } else {
      ChainHitsOk(tables, m, k + 1, name, units, isRel, h);
    }
  }

  /** A hit of a chain from k comes from entry k or from the rest of the chain. */
  lemma ChainHitsIn(tables: seq<SymTable>, m: nat, k: nat, name: string,
                    units: map<nat, seq<DwObj>>, isRel: bool, h: Hit) returns (n: nat)
    requires TablesOk(tables) && m < |tables|
    requires h in ChainHits(tables[m], m, k, name, units, isRel)
    ensures k < |tables[m].chain| && n == tables[m].chain[k] && n < |tables[m].syms|
    ensures h in EntryHits(tables[m].syms[n], m, n, name, units, isRel)
            || h in ChainHits(tables[m], m, k + 1, name, units, isRel)
  {
    n := tables[m].chain[k];
  }

  /** Every symbol the lookup by name counts carries the name: an ELF symbol with a non-zero
      address or a DWARF function or variable. */
  lemma {:induction false} NameHitsOk(tables: seq<SymTable>, m: nat, name: string,
                                      units: map<nat, seq<DwObj>>, isRel: bool, h: Hit)
    requires TablesOk(tables)
    requires h in NameHits(tables, m, name, units, isRel)
    ensures NameHitOk(h, tables, name, units, isRel)
    decreases |tables| - m
  {
    if m < |tables| {
      if h in ChainHits(tables[m], m, 0, name, units, isRel) {
        ChainHitsOk(tables, m, 0, name, units, isRel, h);
      } else {
        NameHitsOk(tables, m + 1, name, units, isRel, h);
      }
    }
  }

  // ---- get_object_length ----

  /** A DWARF index type as get_object_length reads it: its AT_count, AT_upper_bound and
      AT_lower_bound values, whether it is an enumeration type and its children. */
  datatype IndexType = IndexType(count: Option<nat>, upper: Option<nat>, lower: Option<nat>,
                                 isEnum: bool, children: seq<nat>)

  /** get_object_length, in 64-bit arithmetic. */
  function ObjectLength(o: IndexType): (r: nat)
    ensures IsU64(r)
    ensures o.count.Some? && IsU64(o.count.value) ==> r == o.count.value
    ensures o.count.None? && o.upper.Some? && o.upper.value + 1 < TWO_64 ==>
              var lo := if o.lower.Some? then o.lower.value else 0;
              lo <= o.upper.value + 1 ==> lo + r == o.upper.value + 1
    ensures o.count.None? && o.upper.None? && o.isEnum && |o.children| < TWO_64 ==> r == |o.children|
    ensures o.count.None? && o.upper.None? && !o.isEnum ==> r == 0
  {
    if o.count.Some? then U64(o.count.value)
    else if o.upper.Some? then
      if o.lower.Some? then U64(o.upper.value + 1 - o.lower.value) else U64(o.upper.value + 1)
    else if o.isEnum then U64(|o.children|)
    else 0
  }

  /** The indexes from `lo` to `hi`. */
  function IndexRange(lo: int, hi: int): set<int> {
    set i | lo <= i <= hi && Between(lo, i, hi)
  }

  predicate Between(lo: int, i: int, hi: int) {
    lo <= i <= hi
  }

  lemma {:induction false} IndexRangeSize(lo: int, hi: int)
    requires lo <= hi + 1
    ensures |IndexRange(lo, hi)| == hi + 1 - lo
    decreases hi + 1 - lo
  {
    if lo <= hi {
      IndexRangeSize(lo, hi - 1);
      var below := IndexRange(lo, hi - 1);
      assert hi !in below;
      assert IndexRange(lo, hi) == below + {hi};
      assert |below + {hi}| == |below| + 1;
    } else {
      assert IndexRange(lo, hi) == {};
    }
  }

  /** Given bounds that do not wrap, the length is the number of indexes between them. */
  lemma BoundsLength(o: IndexType)
    requires o.count.None? && o.upper.Some? && o.upper.value + 1 < TWO_64
    requires var lo := if o.lower.Some? then o.lower.value else 0; lo <= o.upper.value + 1
    ensures ObjectLength(o) == |IndexRange(if o.lower.Some? then o.lower.value else 0, o.upper.value)|
  {
    IndexRangeSize(if o.lower.Some? then o.lower.value else 0, o.upper.value);
  }

  /** An upper bound two below the lower bound wraps to the largest 64-bit length. */
  lemma InvertedBoundsWrap(o: IndexType)
    requires o.count.None? && o.upper.Some? && o.lower.Some?
    requires o.lower.value == o.upper.value + 2
    ensures ObjectLength(o) == TWO_64 - 1
  {
    Digits.ModUnique(-1, TWO_64, -1, TWO_64 - 1);
  }

  // ---- get_symbol_length ----

  /** The original type of an unpacked symbol's object: whether it is an array type and its
      index types (the array's children). */
  datatype TypeObj = TypeObj(isArray: bool, indexes: seq<IndexType>)

  function ClassOf(s: SvcSym): int {
    match s
    case PtrSym(_, _) => SYM_CLASS_TYPE
    case PlainSym(c, _, _, _, _, _, _, _, _) => c
  }

  /** The index type the sibling walk stops at: `dimension` as a C `int`, nothing walked for
      a negative one. */
  function IndexAt(indexes: seq<IndexType>, dimension: nat): (r: Option<IndexType>)
    ensures IsU32(dimension) && dimension < 0x8000_0000 ==>
              r == if dimension < |indexes| then Some(indexes[dimension]) else None
  {
    var d := I32(dimension);
    var k := if d < 0 then 0 else d;
    if k < |indexes| then Some(indexes[k]) else None
  }

  /** get_symbol_length. `unpack` is what unpacking the symbol gives: an error, or the
      original type of its object when it has one. */
  function SymbolLength(s: SvcSym, unpack: Result<Option<TypeObj>>): (r: Result<nat>)
    ensures s.PtrSym? && ClassOf(s.base) == SYM_CLASS_FUNCTION ==> r == Fail(ErrInvContext)
    ensures s.PtrSym? && ClassOf(s.base) != SYM_CLASS_FUNCTION ==>
              r == Ok(if s.size == 0 then 1 else s.size)
    ensures s.PlainSym? && s.size != 0 ==> r == Fail(ErrInvContext)
    ensures s.PlainSym? && r.Ok? ==>
              && unpack.Ok? && unpack.value.Some? && unpack.value.value.isArray
              && IndexAt(unpack.value.value.indexes, s.dimension).Some?
              && r.value == ObjectLength(IndexAt(unpack.value.value.indexes, s.dimension).value)
    ensures s.PlainSym? && s.size == 0 && unpack.Ok? && r.Fail? ==> r.error == ErrUnsupported
    ensures s.PlainSym? && s.size == 0 && unpack.Fail? ==> r == Fail(unpack.error)
    ensures (&& s.PlainSym? && s.size == 0 && unpack.Ok? && unpack.value.Some? && unpack.value.value.isArray
             && IndexAt(unpack.value.value.indexes, s.dimension).Some?) ==> r.Ok?
  {
    match s
    case PtrSym(size, b) =>
      if ClassOf(b) == SYM_CLASS_FUNCTION then Fail(ErrInvContext)
      else Ok(if size == 0 then 1 else size)
    case PlainSym(_, _, _, _, _, _, dim, size, _) =>
      if size != 0 then Fail(ErrInvContext)
      else if unpack.Fail? then Fail(unpack.error)
      else if unpack.value.Some? && unpack.value.value.isArray
              && IndexAt(unpack.value.value.indexes, dim).Some? then
        Ok(ObjectLength(IndexAt(unpack.value.value.indexes, dim).value))
      else Fail(ErrUnsupported)
  }

  /** get_symbol_length as written, with the walk over the array's index siblings. */
  method GetSymbolLength(s: SvcSym, unpack: Result<Option<TypeObj>>) returns (r: Result<nat>)
    ensures r == SymbolLength(s, unpack)
  {
    if s.PtrSym? {
      if ClassOf(s.base) == SYM_CLASS_FUNCTION {
        return Fail(ErrInvContext);
      }
      return Ok(if s.size == 0 then 1 else s.size);
    }
    if s.size != 0 {
      return Fail(ErrInvContext);
    }
    if unpack.Fail? {
      return Fail(unpack.error);
    }
    if unpack.value.Some? && unpack.value.value.isArray {
      var indexes := unpack.value.value.indexes;
      var i := I32(s.dimension);
      var idx := 0;
      while i > 0 && idx < |indexes|
        invariant 0 <= idx <= |indexes|
        invariant i + idx == I32(s.dimension)
        invariant idx == 0 || i >= 0
      {
        idx := idx + 1;
        i := i - 1;
      }
      assert idx < |indexes| ==> IndexAt(indexes, s.dimension) == Some(indexes[idx]);
      assert idx == |indexes| ==> IndexAt(indexes, s.dimension).None?;
      if idx < |indexes| {
        return Ok(ObjectLength(indexes[idx]));
      }
    }
    r := Fail(ErrUnsupported);
  }

  /** The length of an array dimension whose bounds do not wrap is the number of its
      indexes. */
  lemma DimensionLength(s: SvcSym, t: TypeObj)
    requires s.PlainSym? && s.size == 0 && t.isArray && s.dimension < |t.indexes|
    requires s.dimension < 0x8000_0000
    requires var o := t.indexes[s.dimension];
             o.count.None? && o.upper.Some? && o.upper.value + 1 < TWO_64
             && (if o.lower.Some? then o.lower.value else 0) <= o.upper.value + 1
    ensures var o := t.indexes[s.dimension];
            SymbolLength(s, Ok(Some(t)))
            == Ok(|IndexRange(if o.lower.Some? then o.lower.value else 0, o.upper.value)|)
  {
    BoundsLength(t.indexes[s.dimension]);
  }

  // ---- get_symbol_value ----

  /** What evaluating a DWARF attribute of the object gives: bytes in the agent's memory
      (`mAddr`), a number with its byte order, a value behind an access function, an absent
      attribute (ERR_SYM_NOT_FOUND) or another error. */
  datatype PropValue =
    | InMemory(bytes: seq<nat>)
    | Number(value: nat, bigEndian: bool)
    | Accessed(read: Result<nat>, bigEndian: bool)
    | Absent
    | PropError(e: Err)

  function Pow256(k: nat): (p: nat)
    ensures p > 0
  {
    if k == 0 then 1 else 256 * Pow256(k - 1)
  }

  /** The `k` low bytes of `n`, least significant first. */
  function LeBytes(n: nat, k: nat): (bs: seq<nat>)
    ensures |bs| == k
    ensures forall i :: 0 <= i < k ==> bs[i] < 256
  {
    if k == 0 then [] else [n % 256] + LeBytes(n / 256, k - 1)
  }

  function Reverse(s: seq<nat>): (r: seq<nat>)
    ensures |r| == |s|
  {
    if s == [] then [] else Reverse(s[1..]) + [s[0]]
  }

  /** The eight bytes of the buffer: the value least significant byte first, the index
      order reversed for a big-endian target. */
  function Packed(n: nat, bigEndian: bool): seq<nat> {
    if bigEndian then Reverse(LeBytes(n, 8)) else LeBytes(n, 8)
  }

  /** The number a little-endian and a big-endian byte sequence stand for. */
  function FromLe(bs: seq<nat>): nat {
    if bs == [] then 0 else bs[0] + 256 * FromLe(bs[1..])
  }

  function FromBe(bs: seq<nat>): nat {
    if bs == [] then 0 else FromBe(bs[..|bs| - 1]) * 256 + bs[|bs| - 1]
  }

  lemma {:induction false} LeBytesRoundTrip(n: nat, k: nat)
    requires n < Pow256(k)
    ensures FromLe(LeBytes(n, k)) == n
  {
    if k > 0 {
      assert n / 256 < Pow256(k - 1);
      LeBytesRoundTrip(n / 256, k - 1);
      assert LeBytes(n, k)[1..] == LeBytes(n / 256, k - 1);
    }
  }

  lemma {:induction false} FromBeReverse(s: seq<nat>)
    ensures FromBe(Reverse(s)) == FromLe(s)
  {
    if s != [] {
      FromBeReverse(s[1..]);
      var r := Reverse(s);
      assert r[..|r| - 1] == Reverse(s[1..]);
    }
  }

  lemma {:induction false} ReverseAt(s: seq<nat>, i: nat)
    requires i < |s|
    ensures Reverse(s)[i] == s[|s| - 1 - i]
  {
    if i < |s| - 1 {
      ReverseAt(s[1..], i);
    }
  }

  /** The buffer holds the value in the target's byte order: read back in that order it is
      the value again. */
  lemma PackedRoundTrip(n: nat, bigEndian: bool)
    requires IsU64(n)
    ensures |Packed(n, bigEndian)| == 8
    ensures (if bigEndian then FromBe(Packed(n, bigEndian)) else FromLe(Packed(n, bigEndian))) == n
  {
    assert Pow256(8) == TWO_64;
    LeBytesRoundTrip(n, 8);
    FromBeReverse(LeBytes(n, 8));
  }

  /** Where the packing loop puts byte `i`. */
  function Slot(i: nat, bigEndian: bool): (k: nat)
    requires i < 8
    ensures k < 8
  {
    if bigEndian then 7 - i else i
  }

  /** The packing loop: `bf[big ? 7 - i : i] = n & 0xff; n >>= 8` eight times. */
  method PackValue(n: nat, bigEndian: bool) returns (bf: array<nat>)
    ensures fresh(bf) && bf[..] == Packed(n, bigEndian)
  {
    bf := new nat[8];
    var v := n;
    var i := 0;
    ghost var le := LeBytes(n, 8);
    while i < 8
      invariant 0 <= i <= 8 && bf.Length == 8
      invariant le[i..] == LeBytes(v, 8 - i)
      invariant forall j :: 0 <= j < i ==> bf[Slot(j, bigEndian)] == le[j]
    {
      PackStep(v, i, le);
      assert forall j :: 0 <= j < i ==> Slot(j, bigEndian) != Slot(i, bigEndian);
      bf[Slot(i, bigEndian)] := v % 256;
      v := v / 256;
      i := i + 1;
    }
    SlotsPacked(bf[..], le, bigEndian);
  }

  /** One round of the packing loop: the low byte of what is left is the next byte of the
      value, and shifting it out leaves the remaining bytes. */
  lemma PackStep(v: nat, i: nat, le: seq<nat>)
    requires i < 8 && |le| == 8 && le[i..] == LeBytes(v, 8 - i)
    ensures le[i] == v % 256 && le[i + 1..] == LeBytes(v / 256, 7 - i)
  {
    assert LeBytes(v, 8 - i) == [v % 256] + LeBytes(v / 256, 7 - i);
    assert le[i + 1..] == le[i..][1..];
  }

  lemma SlotsPacked(s: seq<nat>, le: seq<nat>, bigEndian: bool)
    requires |s| == 8 && |le| == 8
    requires forall j :: 0 <= j < 8 ==> s[Slot(j, bigEndian)] == le[j]
    ensures s == if bigEndian then Reverse(le) else le
  {
    if bigEndian {
      forall k | 0 <= k < 8
        ensures s[k] == Reverse(le)[k]
      {
        ReverseAt(le, k);
        assert Slot(7 - k, true) == k;
      }
    } else {
      forall k | 0 <= k < 8
        ensures s[k] == le[k]
      {
        assert Slot(k, false) == k;
      }
    }
  }

  /** get_symbol_value: pointer types and sized symbols have no value; otherwise the object's
      constant value (its bytes, or a number packed in the target's byte order), and when
      the object has none, the value behind its location's access function. `unpack` is an
      error or whether the symbol has a DWARF object. */
  function SymbolValue(s: SvcSym, unpack: Result<bool>, constValue: PropValue, location: PropValue)
    : (r: Result<seq<nat>>)
    ensures s.PtrSym? || s.size != 0 ==> r == Fail(ErrInvContext)
    ensures r.Ok? && constValue.Number? ==>
              r.value == Packed(U64(constValue.value), constValue.bigEndian)
    ensures r.Ok? && !constValue.InMemory? ==> |r.value| == 8
    ensures constValue.Accessed? && r.Fail? ==> r.error == ErrInvContext || unpack.Fail?
    ensures s.PlainSym? && s.size == 0 && unpack.Fail? ==> r == Fail(unpack.error)
    ensures s.PlainSym? && s.size == 0 && unpack == Ok(false) ==> r == Fail(ErrInvContext)
    ensures s.PlainSym? && s.size == 0 && unpack == Ok(true) && constValue.Accessed? ==>
              r == Fail(ErrInvContext)
    ensures s.PlainSym? && s.size == 0 && unpack == Ok(true) && constValue.InMemory? ==>
              r == Ok(constValue.bytes)
    ensures s.PlainSym? && s.size == 0 && unpack == Ok(true) && constValue.Absent?
              && location.Accessed? && location.read.Ok? ==>
              r == Ok(Packed(U64(location.read.value), location.bigEndian))
  {
    if s.PtrSym? || s.size != 0 then Fail(ErrInvContext)
    else if unpack.Fail? then Fail(unpack.error)
    else if !unpack.value then Fail(ErrInvContext)
    else match constValue
      case InMemory(bytes) => Ok(bytes)
      case Number(v, big) => Ok(Packed(U64(v), big))
      case Accessed(_, _) => Fail(ErrInvContext)
      case PropError(e) => Fail(e)
      case Absent =>
        match location
        case Accessed(Ok(v), big) => Ok(Packed(U64(v), big))
        case Accessed(Fail(e), _) => Fail(e)
        case PropError(e) => Fail(e)
        case _ => Fail(ErrInvContext)
  }

  /** A constant number comes back from the buffer in the target's byte order. */
  lemma ConstantValueRoundTrip(s: SvcSym, n: nat, bigEndian: bool, location: PropValue)
    requires s.PlainSym? && s.size == 0 && IsU64(n)
    ensures var r := SymbolValue(s, Ok(true), Number(n, bigEndian), location);
            r.Ok? && (if bigEndian then FromBe(r.value) else FromLe(r.value)) == n
  {
    PackedRoundTrip(n, bigEndian);
  }
}
