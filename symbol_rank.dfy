/** The candidate list of a symbol search in the agent's ELF/DWARF reader and the way
    sort_find_symbol_buf settles it: duplicates (same object, 'this' variable, symbol table
    and index) are dropped and the rest is ordered best match first. Pointer identities
    become numbers: an object's or table's `id`, with 0 for NULL. */
module SymbolRank {
  import opened Base
  import opened AgentSymbols

  /** SHN_UNDEF and SHN_COMMON, the section indices of undefined and common ELF symbols. */
  const SHN_UNDEF: nat := 0
  const SHN_COMMON: nat := 0xfff2

  /** A DWARF entry as the ranking sees it: its identity, tag and the DOIF_* flags read. */
  datatype Obj = Obj(
    id: nat, tag: Tag, external: bool, declaration: bool, abstractOrigin: bool,
    location: bool, lowPc: bool)

  /** The symbol table section an ELF candidate was found in: its identity and its own
      position in the file's section list. */
  datatype Table = Table(id: nat, index: nat)

  /** The fields of a Symbol the search list uses. `thisVar` is the 'this' variable through
      which a member was found (0 for none). For an ELF candidate, `index` is its entry in the
      table and `shndx` the section index the entry itself holds (st_shndx). */
  datatype Sym = Sym(
    obj: Option<Obj>, thisVar: nat, tbl: Option<Table>, index: nat, shndx: nat, level: nat,
    hasAddress: bool, pos: nat, dup: bool)

  /** symbol_priority: +2 for external, -4 for a declaration, +1 for an abstract origin, and
      -1 for a class, structure, union or enumeration type. */
  function Priority(o: Obj): (p: int)
    ensures -5 <= p <= 3
  {
    (if o.external then 2 else 0) + (if o.declaration then -4 else 0)
    + (if o.abstractOrigin then 1 else 0) + (if IsCompositeTag(o.tag) then -1 else 0)
  }

  /** Whatever the other flags, a definition outranks a declaration and an external entry a
      static one, while an aggregate type ranks below the same entry with another tag. */
  lemma PriorityFlags(o: Obj, t: Tag)
    requires !IsCompositeTag(t)
    ensures Priority(o.(declaration := false)) == Priority(o.(declaration := true)) + 4
    ensures Priority(o.(external := true)) == Priority(o.(external := false)) + 2
    ensures Priority(o.(tag := ClassType)) == Priority(o.(tag := t)) - 1
  {
  }

  /** has_symbol_address as written: for an ELF candidate it compares the index of the
      symbol table section the candidate was found in with SHN_UNDEF and SHN_COMMON. */
  function HasAddressAsWritten(s: Sym): bool {
    if s.hasAddress then true
    else if s.tbl.Some? then s.tbl.value.index != SHN_UNDEF && s.tbl.value.index != SHN_COMMON
    else if s.obj.Some? then s.obj.value.location || s.obj.value.lowPc
    else false
  }

  /** A symbol table is never section 0 (the null section) nor at SHN_COMMON, so as written
      an undefined or common ELF symbol is reported to have an address. */
  lemma TableIndexHidesUndefined(s: Sym)
    requires !s.hasAddress && s.tbl.Some?
    requires s.tbl.value.index != SHN_UNDEF && s.tbl.value.index != SHN_COMMON
    requires s.shndx == SHN_UNDEF || s.shndx == SHN_COMMON
    ensures HasAddressAsWritten(s) && !HasAddress(s)
  {
  }

  /** has_symbol_address as intended by its comment ("no address, e.g. undef or common"): an
      explicit address; else, for an ELF candidate, an entry defined in a section other than
      SHN_COMMON; else a DWARF location or low PC. The rest of the model uses this one. */
  function HasAddress(s: Sym): (b: bool)
    ensures !s.hasAddress && s.tbl.Some? ==>
      (b <==> s.shndx != SHN_UNDEF && s.shndx != SHN_COMMON)
    ensures !s.hasAddress && s.tbl.None? ==>
      (b <==> s.obj.Some? && (s.obj.value.location || s.obj.value.lowPc))
  {
    if s.hasAddress then true
    else if s.tbl.Some? then s.shndx != SHN_UNDEF && s.shndx != SHN_COMMON
    else if s.obj.Some? then s.obj.value.location || s.obj.value.lowPc
    else false
  }

  /** has_symbol_list_no_location_info's comment, for a list of ELF candidates: the list has
      no location information exactly when every candidate is undefined or common. */
  lemma NoLocationOnlyUndefinedOrCommon(list: seq<Sym>)
    requires forall i :: 0 <= i < |list| ==> !list[i].hasAddress && list[i].tbl.Some?
    ensures (forall i :: 0 <= i < |list| ==> !HasAddress(list[i])) <==>
            (forall i :: 0 <= i < |list| ==> list[i].shndx == SHN_UNDEF || list[i].shndx == SHN_COMMON)
  {
  }

  function ObjRef(o: Option<Obj>): nat {
    if o.None? then 0 else o.value.id + 1
  }

  function TblRef(t: Option<Table>): nat {
    if t.None? then 0 else t.value.id + 1
  }

  /** symbol_equ_comparator: object, then 'this' variable, then table, then index. */
  function EquCmp(x: Sym, y: Sym): int {
    if ObjRef(x.obj) < ObjRef(y.obj) then -1
    else if ObjRef(x.obj) > ObjRef(y.obj) then 1
    else if x.thisVar < y.thisVar then -1
    else if x.thisVar > y.thisVar then 1
    else if TblRef(x.tbl) < TblRef(y.tbl) then -1
    else if TblRef(x.tbl) > TblRef(y.tbl) then 1
    else if x.index < y.index then -1
    else if x.index > y.index then 1
    else 0
  }

  function PrioOf(o: Option<Obj>): int {
    if o.None? then 0 else Priority(o.value)
  }

  /** symbol_prt_comparator, lowest rank first: an address, then deeper level, then a DWARF
      object, then higher priority, then not reached through 'this', then earlier added
      (smaller `pos`) rank higher. */
  function PrtCmp(x: Sym, y: Sym): int {
    if HasAddress(x) && !HasAddress(y) then 1
    else if HasAddress(y) && !HasAddress(x) then -1
    else if x.level < y.level then -1
    else if x.level > y.level then 1
    else if x.obj.None? && y.obj.Some? then -1
    else if x.obj.Some? && y.obj.None? then 1
    else if x.obj != y.obj && PrioOf(x.obj) < PrioOf(y.obj) then -1
    else if x.obj != y.obj && PrioOf(x.obj) > PrioOf(y.obj) then 1
    else if x.thisVar == 0 && y.thisVar != 0 then 1
    else if x.thisVar != 0 && y.thisVar == 0 then -1
    else if x.pos < y.pos then 1
    else if x.pos > y.pos then -1
    else 0
  }

  /** Among ELF candidates, a symbol defined in a section ranks above an undefined or common
      one, whatever their levels and positions. */
  lemma DefinedOutranksUndefined(x: Sym, y: Sym)
    requires !x.hasAddress && x.tbl.Some? && x.shndx != SHN_UNDEF && x.shndx != SHN_COMMON
    requires !y.hasAddress && y.tbl.Some? && (y.shndx == SHN_UNDEF || y.shndx == SHN_COMMON)
    ensures PrtCmp(x, y) > 0 && PrtCmp(y, x) < 0
  {
  }

  // ---------------------------------------------------------------------------------------
  // Both comparators are lexicographic orders on a key.

  function Bit(b: bool): int {
    if b then 1 else 0
  }

  function EquKey(s: Sym): (k: seq<int>)
    ensures |k| == 4
  {
    [ObjRef(s.obj), s.thisVar, TblRef(s.tbl), s.index]
  }

  function PrtKey(s: Sym): (k: seq<int>)
    ensures |k| == 6
  {
    [Bit(HasAddress(s)), s.level, Bit(s.obj.Some?), PrioOf(s.obj), Bit(s.thisVar == 0), -(s.pos as int)]
  }

  /** Lexicographic comparison of two keys from position `i` on. */
  function Lex(a: seq<int>, b: seq<int>, i: nat): (c: int)
    requires |a| == |b| && i <= |a|
    ensures -1 <= c <= 1
    decreases |a| - i
  {
    if i == |a| then 0
    else if a[i] < b[i] then -1
    else if a[i] > b[i] then 1
    else Lex(a, b, i + 1)
  }

  lemma {:induction false} LexAnti(a: seq<int>, b: seq<int>, i: nat)
    requires |a| == |b| && i <= |a|
    ensures Lex(a, b, i) == -Lex(b, a, i)
    decreases |a| - i
  {
    if i < |a| && a[i] == b[i] {
      LexAnti(a, b, i + 1);
    }
  }

  lemma {:induction false} LexZero(a: seq<int>, b: seq<int>, i: nat)
    requires |a| == |b| && i <= |a|
    ensures Lex(a, b, i) == 0 <==> a[i..] == b[i..]
    decreases |a| - i
  {
    if i < |a| {
      LexZero(a, b, i + 1);
      if a[i] == b[i] && a[i + 1..] == b[i + 1..] {
        assert a[i..] == [a[i]] + a[i + 1..];
        assert b[i..] == [b[i]] + b[i + 1..];
      }
      if a[i..] == b[i..] {
        assert a[i] == a[i..][0] && a[i + 1..] == a[i..][1..];
      }
    }
  }

  lemma {:induction false} LexTrans(a: seq<int>, b: seq<int>, c: seq<int>, i: nat)
    requires |a| == |b| == |c| && i <= |a|
    requires Lex(a, b, i) <= 0 && Lex(b, c, i) <= 0
    ensures Lex(a, c, i) <= 0
    decreases |a| - i
  {
    if i < |a| && a[i] == b[i] && b[i] == c[i] {
      LexTrans(a, b, c, i + 1);
    }
  }

  /** symbol_equ_comparator is the lexicographic order of the equality keys. */
  lemma EquCmpIsLex(x: Sym, y: Sym)
    ensures EquCmp(x, y) == Lex(EquKey(x), EquKey(y), 0)
    ensures EquCmp(x, y) == 0 <==> EquKey(x) == EquKey(y)
  {
    var a, b := EquKey(x), EquKey(y);
    assert Lex(a, b, 4) == 0;
    assert Lex(a, b, 3) == (if a[3] < b[3] then -1 else if a[3] > b[3] then 1 else 0);
    assert Lex(a, b, 2) == (if a[2] < b[2] then -1 else if a[2] > b[2] then 1 else Lex(a, b, 3));
    assert Lex(a, b, 1) == (if a[1] < b[1] then -1 else if a[1] > b[1] then 1 else Lex(a, b, 2));
    assert Lex(a, b, 0) == (if a[0] < b[0] then -1 else if a[0] > b[0] then 1 else Lex(a, b, 1));
    LexZero(a, b, 0);
  }

  /** symbol_prt_comparator is the lexicographic order of the rank keys. */
  lemma PrtCmpIsLex(x: Sym, y: Sym)
    ensures PrtCmp(x, y) == Lex(PrtKey(x), PrtKey(y), 0)
  {
    var a, b := PrtKey(x), PrtKey(y);
    assert Lex(a, b, 6) == 0;
    assert Lex(a, b, 5) == (if a[5] < b[5] then -1 else if a[5] > b[5] then 1 else 0);
    assert Lex(a, b, 4) == (if a[4] < b[4] then -1 else if a[4] > b[4] then 1 else Lex(a, b, 5));
    assert Lex(a, b, 3) == (if a[3] < b[3] then -1 else if a[3] > b[3] then 1 else Lex(a, b, 4));
    assert Lex(a, b, 2) == (if a[2] < b[2] then -1 else if a[2] > b[2] then 1 else Lex(a, b, 3));
    assert Lex(a, b, 1) == (if a[1] < b[1] then -1 else if a[1] > b[1] then 1 else Lex(a, b, 2));
    assert Lex(a, b, 0) == (if a[0] < b[0] then -1 else if a[0] > b[0] then 1 else Lex(a, b, 1));
  }

  // ---------------------------------------------------------------------------------------
  // The two qsort calls: any arrangement sorted by the comparator.

  datatype Order = ByEqu | ByPrt

  function Key(o: Order, s: Sym): (k: seq<int>)
    ensures |k| == if o == ByEqu then 4 else 6
  {
    if o == ByEqu then EquKey(s) else PrtKey(s)
  }

  predicate Le(o: Order, x: Sym, y: Sym) {
    Lex(Key(o, x), Key(o, y), 0) <= 0
  }

  lemma LeTotal(o: Order, x: Sym, y: Sym)
    ensures Le(o, x, y) || Le(o, y, x)
  {
    LexAnti(Key(o, x), Key(o, y), 0);
  }

  lemma LeTrans(o: Order, x: Sym, y: Sym, z: Sym)
    requires Le(o, x, y) && Le(o, y, z)
    ensures Le(o, x, z)
  {
    LexTrans(Key(o, x), Key(o, y), Key(o, z), 0);
  }

  predicate Sorted(o: Order, s: seq<Sym>) {
    forall i, j :: 0 <= i < j < |s| ==> Le(o, s[i], s[j])
  }

  function Insert(o: Order, x: Sym, s: seq<Sym>): (r: seq<Sym>)
    ensures |r| == |s| + 1 && multiset(r) == multiset(s) + multiset{x}
  {
    if s == [] then [x]
    else if Le(o, x, s[0]) then [x] + s
    else assert s == [s[0]] + s[1..]; [s[0]] + Insert(o, x, s[1..])
  }

  lemma {:induction false} InsertSorted(o: Order, x: Sym, s: seq<Sym>)
    requires Sorted(o, s)
    ensures Sorted(o, Insert(o, x, s))
  {
    if s == [] {
    } else if Le(o, x, s[0]) {
      forall j | 0 < j < |s| ensures Le(o, x, s[j]) {
        LeTrans(o, x, s[0], s[j]);
      }
      ConsSorted(o, x, s);
    } else {
      LeTotal(o, x, s[0]);
      SortedTail(o, s);
      InsertSorted(o, x, s[1..]);
      InsertAbove(o, x, s);
      ConsSorted(o, s[0], Insert(o, x, s[1..]));
    }
  }

  lemma SortedTail(o: Order, s: seq<Sym>)
    requires Sorted(o, s) && s != []
    ensures Sorted(o, s[1..]) && forall j :: 0 <= j < |s[1..]| ==> Le(o, s[0], s[1..][j])
  {
    forall i, j | 0 <= i < j < |s[1..]| ensures Le(o, s[1..][i], s[1..][j]) {
      assert s[1..][i] == s[i + 1] && s[1..][j] == s[j + 1];
    }
    forall j | 0 <= j < |s[1..]| ensures Le(o, s[0], s[1..][j]) {
      assert s[1..][j] == s[j + 1];
    }
  }

  /** A sorted sequence stays sorted with an element below all of it put in front. */
  lemma ConsSorted(o: Order, y: Sym, r: seq<Sym>)
    requires Sorted(o, r) && forall j :: 0 <= j < |r| ==> Le(o, y, r[j])
    ensures Sorted(o, [y] + r)
  {
    var t := [y] + r;
    forall i, j | 0 <= i < j < |t| ensures Le(o, t[i], t[j]) {
      assert t[j] == r[j - 1];
      if i > 0 {
        assert t[i] == r[i - 1];
      }
    }
  }

  /** Inserting `x` above the head keeps every element of the tail's insertion above the head. */
  lemma InsertAbove(o: Order, x: Sym, s: seq<Sym>)
    requires Sorted(o, s) && s != [] && Le(o, s[0], x)
    ensures forall j :: 0 <= j < |Insert(o, x, s[1..])| ==> Le(o, s[0], Insert(o, x, s[1..])[j])
  {
    var r := Insert(o, x, s[1..]);
    forall j | 0 <= j < |r| ensures Le(o, s[0], r[j]) {
      assert r[j] in multiset(s[1..]) + multiset{x} by {
        assert r[j] in multiset(r);
      }
      if r[j] != x {
        assert r[j] in s[1..];
      }
    }
  }

  /** The sort the two qsort calls stand for (an insertion sort). */
  function SortBy(o: Order, s: seq<Sym>): (r: seq<Sym>)
    ensures |r| == |s| && multiset(r) == multiset(s)
  {
    if s == [] then []
    else assert s == [s[0]] + s[1..]; Insert(o, s[0], SortBy(o, s[1..]))
  }

  lemma {:induction false} SortBySorted(o: Order, s: seq<Sym>)
    ensures Sorted(o, SortBy(o, s))
  {
    if s != [] {
      SortBySorted(o, s[1..]);
      InsertSorted(o, s[0], SortBy(o, s[1..]));
    }
  }

  // ---------------------------------------------------------------------------------------
  // sort_find_symbol_buf as a function of the list

  /** The list copied into `buf`, each entry numbered `pos = cnt - position` (the entry added
      first gets 1) with its `dup` flag cleared. */
  function Numbered(s: seq<Sym>): (r: seq<Sym>)
    ensures |r| == |s|
    ensures forall i :: 0 <= i < |s| ==> r[i] == s[i].(pos := |s| - i, dup := false)
  {
    seq(|s|, i requires 0 <= i < |s| => s[i].(pos := |s| - i, dup := false))
  }

  /** Whether the entry at `i` equals its predecessor under symbol_equ_comparator. */
  predicate SameAsPrevious(t: seq<Sym>, i: nat)
    requires i < |t|
  {
    i > 0 && EquKey(t[i - 1]) == EquKey(t[i])
  }

  /** Every entry equal to its predecessor under symbol_equ_comparator gets `dup` set. */
  function Mark(t: seq<Sym>): (r: seq<Sym>)
    ensures |r| == |t|
    ensures forall i :: 0 <= i < |t| ==> r[i] == t[i].(dup := t[i].dup || SameAsPrevious(t, i))
  {
    seq(|t|, i requires 0 <= i < |t| => t[i].(dup := t[i].dup || SameAsPrevious(t, i)))
  }

  /** The rebuilt list: the entries without `dup`, each pushed on the front in turn. */
  function RevKeep(t: seq<Sym>): (r: seq<Sym>)
    ensures |r| <= |t|
  {
    if t == [] then []
    else if t[|t| - 1].dup then RevKeep(t[..|t| - 1])
    else [t[|t| - 1]] + RevKeep(t[..|t| - 1])
  }

  /** The list sort_find_symbol_buf leaves for a list of two or more entries. */
  function Ranked(s: seq<Sym>): seq<Sym> {
    RevKeep(SortBy(ByPrt, Mark(SortBy(ByEqu, Numbered(s)))))
  }

  /** The number of entries with a given equality key. */
  function KeyCount(r: seq<Sym>, k: seq<int>): nat {
    if r == [] then 0 else (if EquKey(r[0]) == k then 1 else 0) + KeyCount(r[1..], k)
  }

  /** The number of entries with a given equality key and no `dup` flag. */
  function KeptCount(t: seq<Sym>, k: seq<int>): nat {
    if t == [] then 0 else (if !t[0].dup && EquKey(t[0]) == k then 1 else 0) + KeptCount(t[1..], k)
  }

  predicate HasKey(t: seq<Sym>, k: seq<int>) {
    exists i :: 0 <= i < |t| && EquKey(t[i]) == k
  }

  lemma {:induction false} KeptCountSplit(u: seq<Sym>, v: seq<Sym>, k: seq<int>)
    ensures KeptCount(u + v, k) == KeptCount(u, k) + KeptCount(v, k)
  {
    if u != [] {
      assert (u + v)[0] == u[0];
      assert (u + v)[1..] == u[1..] + v;
      KeptCountSplit(u[1..], v, k);
    } else {
      assert u + v == v;
    }
  }

  lemma {:induction false} KeptCountPerm(a: seq<Sym>, b: seq<Sym>, k: seq<int>)
    requires multiset(a) == multiset(b)
    ensures KeptCount(a, k) == KeptCount(b, k)
    decreases |a|
  {
    if a == [] {
      assert |b| == |multiset(b)| == 0;
    } else {
      var x := a[0];
      assert x in multiset(b) by {
        assert x in multiset(a);
      }
      var i :| 0 <= i < |b| && b[i] == x;
      MultisetRemove(b, i);
      assert multiset(a[1..]) == multiset(a) - multiset{x} by {
        assert a == [x] + a[1..];
      }
      KeptCountPerm(a[1..], b[..i] + b[i + 1..], k);
      KeptCountRemove(b, i, k);
    }
  }

  /** Removing the entry at `i` removes one copy of it from the multiset. */
  lemma MultisetRemove(b: seq<Sym>, i: nat)
    requires i < |b|
    ensures multiset(b[..i] + b[i + 1..]) == multiset(b) - multiset{b[i]}
  {
    assert b == b[..i] + [b[i]] + b[i + 1..];
    assert multiset(b) == multiset(b[..i]) + multiset{b[i]} + multiset(b[i + 1..]);
  }

  /** Removing the entry at `i` removes its contribution to the count. */
  lemma KeptCountRemove(b: seq<Sym>, i: nat, k: seq<int>)
    requires i < |b|
    ensures KeptCount(b, k)
            == KeptCount(b[..i] + b[i + 1..], k) + (if !b[i].dup && EquKey(b[i]) == k then 1 else 0)
  {
    assert b == b[..i] + [b[i]] + b[i + 1..];
    KeptCountSplit(b[..i] + [b[i]], b[i + 1..], k);
    KeptCountSplit(b[..i], [b[i]], k);
    KeptCountSplit(b[..i], b[i + 1..], k);
  }

  lemma {:induction false} RevKeepCount(t: seq<Sym>, k: seq<int>)
    ensures KeyCount(RevKeep(t), k) == KeptCount(t, k)
  {
    if t != [] {
      var t', x := t[..|t| - 1], t[|t| - 1];
      assert t == t' + [x];
      RevKeepCount(t', k);
      KeptCountSplit(t', [x], k);
      if !x.dup {
        assert ([x] + RevKeep(t'))[1..] == RevKeep(t');
      }
    }
  }

  /** Entries of the rebuilt list come from the sorted buffer and carry no `dup` flag. */
  lemma {:induction false} RevKeepFrom(t: seq<Sym>, y: Sym)
    requires y in RevKeep(t)
    ensures y in t && !y.dup
  {
    if t != [] {
      var t' := t[..|t| - 1];
      if y != t[|t| - 1] || t[|t| - 1].dup {
        RevKeepFrom(t', y);
      }
    }
  }

  lemma RevKeepSnoc(t: seq<Sym>)
    requires t != []
    ensures RevKeep(t) == if t[|t| - 1].dup then RevKeep(t[..|t| - 1]) else [t[|t| - 1]] + RevKeep(t[..|t| - 1])
  {
  }

  lemma SortedPrefix(o: Order, t: seq<Sym>, n: nat)
    requires Sorted(o, t) && n <= |t|
    ensures Sorted(o, t[..n])
  {
    forall i, j | 0 <= i < j < n ensures Le(o, t[..n][i], t[..n][j]) {
      assert t[..n][i] == t[i] && t[..n][j] == t[j];
    }
  }

  /** Pushing on the front reverses the ascending order of the buffer. */
  lemma {:induction false} RevKeepDescending(t: seq<Sym>)
    requires Sorted(ByPrt, t)
    ensures var r := RevKeep(t); forall i, j :: 0 <= i < j < |r| ==> Le(ByPrt, r[j], r[i])
  {
    if t != [] {
      var t', x := t[..|t| - 1], t[|t| - 1];
      SortedPrefix(ByPrt, t, |t| - 1);
      RevKeepDescending(t');
      RevKeepSnoc(t);
      var r' := RevKeep(t');
      if !x.dup {
        assert t == t' + [x];
        forall y | y in r' ensures Le(ByPrt, y, x) {
          RevKeepAtMost(t', y, x);
        }
        DescendingCons(x, r');
      }
    }
  }

  /** A descending sequence stays descending with an element above all of it put in front. */
  lemma DescendingCons(x: Sym, r': seq<Sym>)
    requires forall i, j :: 0 <= i < j < |r'| ==> Le(ByPrt, r'[j], r'[i])
    requires forall y :: y in r' ==> Le(ByPrt, y, x)
    ensures var r := [x] + r'; forall i, j :: 0 <= i < j < |r| ==> Le(ByPrt, r[j], r[i])
  {
    var r := [x] + r';
    forall i, j | 0 <= i < j < |r| ensures Le(ByPrt, r[j], r[i]) {
      assert r[j] == r'[j - 1];
      if i > 0 {
        assert r[i] == r'[i - 1];
      }
    }
  }

  lemma RevKeepAtMost(t': seq<Sym>, y: Sym, x: Sym)
    requires Sorted(ByPrt, t' + [x]) && y in RevKeep(t')
    ensures Le(ByPrt, y, x)
  {
    RevKeepFrom(t', y);
    var p :| 0 <= p < |t'| && t'[p] == y;
    assert (t' + [x])[p] == y && (t' + [x])[|t'|] == x;
  }

  lemma MarkSnoc(t: seq<Sym>)
    requires t != []
    ensures Mark(t) == Mark(t[..|t| - 1]) + [Mark(t)[|t| - 1]]
  {
    var t' := t[..|t| - 1];
    var r, r' := Mark(t), Mark(t');
    forall i | 0 <= i < |t'|
      ensures r[i] == r'[i]
    {
      assert t'[i] == t[i];
      if i > 0 {
        assert t'[i - 1] == t[i - 1];
      }
    }
    assert r == r' + [r[|t| - 1]];
  }

  /** In a buffer sorted by key, an earlier entry with the last entry's key makes the one
      before the last share that key too. */
  lemma SortedRun(t: seq<Sym>, p: nat)
    requires Sorted(ByEqu, t) && p < |t| - 1 && EquKey(t[p]) == EquKey(t[|t| - 1])
    ensures EquKey(t[|t| - 2]) == EquKey(t[|t| - 1])
  {
    var l, x := t[|t| - 2], t[|t| - 1];
    assert Le(ByEqu, t[p], l) || p == |t| - 2;
    assert Le(ByEqu, l, x);
    LexAnti(EquKey(l), EquKey(x), 0);
    LexZero(EquKey(l), EquKey(x), 0);
  }

  lemma HasKeySnoc(t: seq<Sym>, k: seq<int>)
    requires t != []
    ensures HasKey(t, k) <==> HasKey(t[..|t| - 1], k) || EquKey(t[|t| - 1]) == k
  {
    var t' := t[..|t| - 1];
    if HasKey(t, k) && EquKey(t[|t| - 1]) != k {
      var p :| 0 <= p < |t| && EquKey(t[p]) == k;
      assert t'[p] == t[p];
    }
    if HasKey(t', k) {
      var p :| 0 <= p < |t'| && EquKey(t'[p]) == k;
      assert t[p] == t'[p];
    }
    if EquKey(t[|t| - 1]) == k {
      assert 0 <= |t| - 1 < |t|;
    }
  }

  lemma {:induction false} MarkCount(t: seq<Sym>, k: seq<int>)
    requires Sorted(ByEqu, t) && forall i :: 0 <= i < |t| ==> !t[i].dup
    ensures KeptCount(Mark(t), k) == if HasKey(t, k) then 1 else 0
  {
    if t != [] {
      var t', x := t[..|t| - 1], t[|t| - 1];
      var last := Mark(t)[|t| - 1];
      MarkSnoc(t);
      SortedPrefix(ByEqu, t, |t| - 1);
      MarkCount(t', k);
      KeptCountSplit(Mark(t'), [last], k);
      assert KeptCount([last], k) == if !last.dup && EquKey(x) == k then 1 else 0;
      HasKeySnoc(t, k);
      if EquKey(x) == k && !last.dup && HasKey(t', k) {
        var p :| 0 <= p < |t'| && EquKey(t'[p]) == k;
        assert t[p] == t'[p];
        SortedRun(t, p);
        assert false;
      }
      if EquKey(x) == k && last.dup {
        assert EquKey(t'[|t'| - 1]) == k;
      }
    }
  }

  lemma {:induction false} KeyCountTwo(r: seq<Sym>, i: nat, j: nat)
    requires i < j < |r| && EquKey(r[i]) == EquKey(r[j])
    ensures KeyCount(r, EquKey(r[i])) >= 2
  {
    if i > 0 {
      KeyCountTwo(r[1..], i - 1, j - 1);
    } else {
      KeyCountOne(r[1..], j - 1, EquKey(r[0]));
    }
  }

  lemma {:induction false} KeyCountOne(r: seq<Sym>, j: nat, k: seq<int>)
    requires j < |r| && EquKey(r[j]) == k
    ensures KeyCount(r, k) >= 1
  {
    if j > 0 {
      KeyCountOne(r[1..], j - 1, k);
    }
  }

  /** The intermediate stages of Ranked: sorted by key, marked, sorted by rank. */
  lemma RankedStages(s: seq<Sym>, t: seq<Sym>, m: seq<Sym>, u: seq<Sym>)
    requires t == SortBy(ByEqu, Numbered(s)) && m == Mark(t) && u == SortBy(ByPrt, m)
    ensures Sorted(ByEqu, t) && Sorted(ByPrt, u) && Ranked(s) == RevKeep(u)
    ensures forall y :: y in t ==> y in Numbered(s)
    ensures forall y :: y in u && !y.dup ==> y in t
  {
    SortBySorted(ByEqu, Numbered(s));
    SortBySorted(ByPrt, m);
    SortedFrom(Numbered(s), t);
    UnmarkedFrom(t, m, u);
  }

  lemma SortedFrom(n: seq<Sym>, t: seq<Sym>)
    requires t == SortBy(ByEqu, n)
    ensures forall y :: y in t ==> y in n
  {
    forall y | y in t ensures y in n {
      assert y in multiset(t);
    }
  }

  /** An entry left unmarked was already in the buffer before marking. */
  lemma UnmarkedFrom(t: seq<Sym>, m: seq<Sym>, u: seq<Sym>)
    requires m == Mark(t) && u == SortBy(ByPrt, m)
    ensures forall y :: y in u && !y.dup ==> y in t
  {
    forall y | y in u && !y.dup ensures y in t {
      assert y in multiset(u);
      var p :| 0 <= p < |m| && m[p] == y;
      assert m[p] == t[p];
    }
  }

  /** The count of a key in the result is 1 exactly when the numbered list holds that key. */
  lemma RankedCount(s: seq<Sym>, k: seq<int>)
    ensures KeyCount(Ranked(s), k) == if HasKey(SortBy(ByEqu, Numbered(s)), k) then 1 else 0
  {
    var t := SortBy(ByEqu, Numbered(s));
    var m := Mark(t);
    var u := SortBy(ByPrt, m);
    RankedStages(s, t, m, u);
    RevKeepCount(u, k);
    KeptCountPerm(u, m, k);
    NumberedNotDup(s, t);
    MarkCount(t, k);
  }

  lemma NumberedNotDup(s: seq<Sym>, t: seq<Sym>)
    requires t == SortBy(ByEqu, Numbered(s))
    ensures forall i :: 0 <= i < |t| ==> !t[i].dup
  {
    forall i | 0 <= i < |t| ensures !t[i].dup {
      assert t[i] in multiset(Numbered(s)) by {
        assert t[i] in multiset(t);
      }
    }
  }

  /** Every equality key of the original list is represented exactly once in the result. */
  lemma RankedKeepsOneOfEach(s: seq<Sym>, i: nat)
    requires i < |s|
    ensures KeyCount(Ranked(s), EquKey(s[i])) == 1
  {
    var n := Numbered(s);
    var t := SortBy(ByEqu, n);
    RankedCount(s, EquKey(s[i]));
    assert n[i] in multiset(t) by {
      assert n[i] in multiset(n);
    }
    var p :| 0 <= p < |t| && t[p] == n[i];
    assert EquKey(t[p]) == EquKey(s[i]);
  }

  /** Every entry of the result is an entry of the original list, numbered. */
  lemma RankedFromList(s: seq<Sym>, y: Sym)
    requires y in Ranked(s)
    ensures y in Numbered(s)
  {
    var t := SortBy(ByEqu, Numbered(s));
    var m := Mark(t);
    var u := SortBy(ByPrt, m);
    RankedStages(s, t, m, u);
    RevKeepFrom(u, y);
  }

  /** No two entries of the result are equal under symbol_equ_comparator. */
  lemma RankedNoDuplicates(s: seq<Sym>)
    ensures var r := Ranked(s); forall i, j :: 0 <= i < j < |r| ==> EquCmp(r[i], r[j]) != 0
  {
    var r := Ranked(s);
    forall i, j | 0 <= i < j < |r| ensures EquCmp(r[i], r[j]) != 0 {
      EquCmpIsLex(r[i], r[j]);
      if EquKey(r[i]) == EquKey(r[j]) {
        KeyCountTwo(r, i, j);
        RankedFromList(s, r[i]);
        var q :| 0 <= q < |s| && Numbered(s)[q] == r[i];
        RankedKeepsOneOfEach(s, q);
      }
    }
  }

  lemma RankedDescending(s: seq<Sym>)
    ensures var r := Ranked(s); forall i, j :: 0 <= i < j < |r| ==> Le(ByPrt, r[j], r[i])
  {
    var t := SortBy(ByEqu, Numbered(s));
    var m := Mark(t);
    var u := SortBy(ByPrt, m);
    RankedStages(s, t, m, u);
    RevKeepDescending(u);
  }

  /** Two entries of the result never share a rank key: their `pos` numbers differ. */
  lemma RankedDistinctRank(s: seq<Sym>, i: nat, j: nat)
    requires i < j < |Ranked(s)|
    ensures PrtKey(Ranked(s)[i]) != PrtKey(Ranked(s)[j])
  {
    var r := Ranked(s);
    if PrtKey(r[j]) == PrtKey(r[i]) {
      RankedFromList(s, r[i]);
      RankedFromList(s, r[j]);
      var p :| 0 <= p < |s| && Numbered(s)[p] == r[i];
      var q :| 0 <= q < |s| && Numbered(s)[q] == r[j];
      assert PrtKey(r[j])[5] == PrtKey(r[i])[5];
      assert r[i] == r[j];
      RankedNoDuplicates(s);
      EquCmpIsLex(r[i], r[j]);
    }
  }

  /** The result is ordered best match first: every entry ranks strictly above the next ones
      under symbol_prt_comparator. */
  lemma RankedOrder(s: seq<Sym>)
    ensures var r := Ranked(s); forall i, j :: 0 <= i < j < |r| ==> PrtCmp(r[i], r[j]) > 0
  {
    var r := Ranked(s);
    RankedDescending(s);
    forall i, j | 0 <= i < j < |r| ensures PrtCmp(r[i], r[j]) > 0 {
      PrtCmpIsLex(r[i], r[j]);
      LexAnti(PrtKey(r[j]), PrtKey(r[i]), 0);
      LexZero(PrtKey(r[j]), PrtKey(r[i]), 0);
      RankedDistinctRank(s, i, j);
    }
  }

  /** `find_symbol_list`: the candidates found so far, the most recently added first. */
  class FindSymbolList {
    var list: seq<Sym>

    constructor ()
      ensures list == []
    {
      list := [];
    }

    /** add_to_find_symbol_buf: the symbol becomes the head of the list. */
    method Add(sym: Sym)
      modifies this
      ensures list == [sym] + old(list)
    {
      list := [sym] + list;
    }

    /** add_obj_to_find_symbol_buf: a DWARF entry found at scope depth `level`. */
    method AddObj(obj: Obj, level: nat)
      modifies this
      ensures list == [Sym(Some(obj), 0, None, 0, 0, level, false, 0, false)] + old(list)
    {
      Add(Sym(Some(obj), 0, None, 0, 0, level, false, 0, false));
    }

    /** has_symbol_list_no_location_info: no candidate has an address. */
    method NoLocationInfo() returns (none: bool)
      ensures none <==> forall i :: 0 <= i < |list| ==> !HasAddress(list[i])
    {
      var i := 0;
      while i < |list|
        invariant 0 <= i <= |list|
        invariant forall j :: 0 <= j < i ==> !HasAddress(list[j])
      {
        if HasAddress(list[i]) {
          return false;
        }
        i := i + 1;
      }
      return true;
    }

    /** sort_find_symbol_buf. Lists of fewer than two entries are left alone. Otherwise every
        entry is numbered into `buf`, `buf` is sorted by symbol_equ_comparator, each entry
        equal to its predecessor is marked duplicate, `buf` is sorted by
        symbol_prt_comparator, and the list is rebuilt from the unmarked entries, the
        highest ranked first. */
    method Sort()
      modifies this
      ensures |old(list)| < 2 ==> list == old(list)
      ensures |old(list)| >= 2 ==> list == Ranked(old(list))
    {
      if |list| < 2 {
        return;
      }
      var cnt := |list|;
      var buf := new Sym[cnt];
      NumberInto(list, buf);
      ghost var n := buf[..];
      list := [];
      QSort(buf, ByEqu);
      ghost var t := buf[..];
      MarkDuplicates(buf);
      QSort(buf, ByPrt);
      list := Rebuild(buf);
      assert list == Ranked(old(list)) by {
        assert n == Numbered(old(list));
        assert t == SortBy(ByEqu, n);
      }
    }
  }

  /** The first loop of sort_find_symbol_buf: `s->dup = 0; s->pos = cnt - pos; buf[pos++] = s`. */
  method NumberInto(s: seq<Sym>, buf: array<Sym>)
    requires buf.Length == |s|
    modifies buf
    ensures buf[..] == Numbered(s)
  {
    var pos := 0;
    while pos < |s|
      invariant 0 <= pos <= |s|
      invariant forall i :: 0 <= i < pos ==> buf[i] == s[i].(pos := |s| - i, dup := false)
    {
      buf[pos] := s[pos].(pos := |s| - pos, dup := false);
      pos := pos + 1;
    }
  }

  /** qsort(buf, cnt, sizeof(Symbol *), comparator): the array is rearranged into order. */
  method QSort(buf: array<Sym>, o: Order)
    modifies buf
    ensures buf[..] == SortBy(o, old(buf[..]))
  {
    var sorted := SortBy(o, buf[..]);
    CopyInto(buf, sorted);
  }

  /** Writes `src` over the whole of `buf`, entry by entry. */
  method CopyInto(buf: array<Sym>, src: seq<Sym>)
    requires |src| == buf.Length
    modifies buf
    ensures buf[..] == src
  {
    var i := 0;
    while i < buf.Length
      invariant 0 <= i <= buf.Length
      invariant forall j :: 0 <= j < i ==> buf[j] == src[j]
    {
      buf[i] := src[i];
      i := i + 1;
    }
  }

  /** The duplicate loop: `if (symbol_equ_comparator(p - 1, p)) continue; (*p)->dup = 1;`. */
  method MarkDuplicates(buf: array<Sym>)
    modifies buf
    ensures buf[..] == Mark(old(buf[..]))
  {
    ghost var t := buf[..];
    if buf.Length == 0 {
      return;
    }
    var pos := 1;
    while pos < buf.Length
      invariant 1 <= pos <= buf.Length
      invariant forall i :: 0 <= i < pos ==> buf[i] == Mark(t)[i]
      invariant forall i :: pos <= i < buf.Length ==> buf[i] == t[i]
    {
      EquCmpIsLex(buf[pos - 1], buf[pos]);
      if EquCmp(buf[pos - 1], buf[pos]) != 0 {
        pos := pos + 1;
        continue;
      }
      buf[pos] := buf[pos].(dup := true);
      pos := pos + 1;
    }
  }

  /** The last loop: each unmarked entry of `buf`, in order, is pushed on the list's front. */
  method Rebuild(buf: array<Sym>) returns (list: seq<Sym>)
    ensures list == RevKeep(buf[..])
  {
    list := [];
    var pos := 0;
    while pos < buf.Length
      invariant 0 <= pos <= buf.Length
      invariant list == RevKeep(buf[..pos])
    {
      assert buf[..pos + 1][..pos] == buf[..pos];
      if !buf[pos].dup {
        list := [buf[pos]] + list;
      }
      pos := pos + 1;
    }
    assert buf[..pos] == buf[..];
  }
}
