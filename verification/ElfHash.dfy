/**
 * The string table, the symbol table and the System V hash table of an ELF file
 * ("Hash Table" in chapter 5 of the System V gABI), with the lookup a dynamic linker performs.
 */
module ElfHash {
  import opened Arith
  import opened Words

  // ---------------------------------------------------------------- NUL-terminated strings

  /** What `c_str()` shows of a string, and what a reader sees from a position in a string table. */
  function CString(s: seq<uint8>): (r: seq<uint8>)
    ensures forall i :: 0 <= i < |r| ==> r[i] != 0
  {
    if s == [] || s[0] == 0 then [] else [s[0]] + CString(s[1..])
  }

  lemma {:induction false} CStringStops(name: seq<uint8>, rest: seq<uint8>)
    ensures CString(name + [0] + rest) == CString(name)
  {
    var s := name + [0] + rest;
    if name == [] {
      assert s[0] == 0;
    } else if name[0] != 0 {
      CStringStops(name[1..], rest);
      assert s[1..] == name[1..] + [0] + rest;
    }
  }

  /** A string that ends inside the table is read the same after more names are added. */
  lemma {:induction false} CStringPrefix(s: seq<uint8>, rest: seq<uint8>)
    requires exists i :: 0 <= i < |s| && s[i] == 0
    ensures CString(s + rest) == CString(s)
  {
    if s[0] != 0 {
      CStringPrefix(s[1..], rest);
      assert (s + rest)[1..] == s[1..] + rest;
    }
  }

  /** The string table: an empty string, then every added name with its terminator. */
  class StringTable {
    var buffer: seq<uint8>

    ghost predicate Valid()
      reads this
    {
      |buffer| > 0 && buffer[0] == 0 && buffer[|buffer| - 1] == 0
    }

    constructor ()
      ensures Valid() && buffer == [0]
    {
      buffer := [0];
    }

    method AddName(name: seq<uint8>) returns (offset: uint32)
      requires Valid()
      modifies this
      ensures Valid()
      ensures buffer == old(buffer) + name + [0]
      ensures offset == U32(|old(buffer)|)
    {
      offset := U32(|buffer|);
      buffer := buffer + name;
      buffer := buffer + [0];
    }
  }

  datatype Symbol = Symbol(name: seq<uint8>, nameIdx: uint32)

  /** Every symbol's name can be read back at its index in the string table. */
  ghost predicate Named(symbols: seq<Symbol>, buffer: seq<uint8>) {
    forall i :: 0 <= i < |symbols| ==>
      symbols[i].nameIdx < |buffer| && CString(buffer[symbols[i].nameIdx..]) == CString(symbols[i].name)
  }

  lemma NamedAfterAppend(symbols: seq<Symbol>, buffer: seq<uint8>, more: seq<uint8>)
    requires Named(symbols, buffer) && |buffer| > 0 && buffer[|buffer| - 1] == 0
    ensures Named(symbols, buffer + more)
  {
    hide CString;
    forall i | 0 <= i < |symbols|
      ensures CString((buffer + more)[symbols[i].nameIdx..]) == CString(symbols[i].name)
    {
      var from := symbols[i].nameIdx;
      var tail := buffer[from..];
      assert tail[|tail| - 1] == 0;
      CStringPrefix(tail, more);
      assert (buffer + more)[from..] == tail + more;
    }
  }

  class SymbolTable {
    var symbols: seq<Symbol>
    const strtab: StringTable

    constructor (strtab: StringTable)
      ensures this.strtab == strtab && symbols == []
    {
      this.strtab := strtab;
      symbols := [];
    }

    /** Names stay readable as long as the string table's offsets fit a 32-bit word. */
    method AddSymbol(name: seq<uint8>)
      requires strtab.Valid()
      modifies this, strtab
      ensures strtab.Valid() && strtab.buffer == old(strtab.buffer) + name + [0]
      ensures symbols == old(symbols) + [Symbol(name, U32(|old(strtab.buffer)|))]
      ensures old(|strtab.buffer| < WORD && Named(symbols, strtab.buffer)) ==> Named(symbols, strtab.buffer)
    {
      ghost var before := strtab.buffer;
      ghost var had := symbols;
      var nameIdx := strtab.AddName(name);
      symbols := symbols + [Symbol(name, nameIdx)];
      if |before| < WORD && Named(had, before) {
        assert strtab.buffer == before + (name + [0]);
        NamedAfterAppend(had, before, name + [0]);
        CStringStops(name, []);
        assert strtab.buffer[|before|..] == name + [0] + [];
      }
    }

    /** The `st_name` field of every entry, after the all-zero first entry. */
    method WriteNames() returns (entries: seq<uint32>)
      ensures NamesWritten(entries, symbols) && entries[0] == 0
    {
      entries := [0];
      for i := 0 to |symbols|
        invariant |entries| == i + 1 && entries[0] == 0
        invariant forall j :: 1 <= j < |entries| ==> entries[j] == symbols[j - 1].nameIdx
      {
        entries := entries + [symbols[i].nameIdx];
      }
    }
  }

  // ---------------------------------------------------------------- the hash function

  /** The gABI's step: fold the top four bits back in and clear them. */
  function Fold(h: bv32): bv32 {
    var g := h & 0xf000_0000;
    (if g != 0 then h ^ (g >> 24) else h) & !g
  }

  function GabiStep(h: bv32, c: uint8): bv32 {
    Fold((h << 4) + (c as bv32))
  }

  function GabiHash(s: seq<uint8>): bv32 {
    if s == [] then 0 else GabiStep(GabiHash(s[..|s| - 1]), s[|s| - 1])
  }

  /** The branch-free fold computes the gABI's. */
  lemma BranchFreeFold(h: bv32)
    ensures (h ^ (h & 0xf000_0000)) ^ ((h & 0xf000_0000) >> 24) == Fold(h)
  {
    hide Fold;
    FoldBack(h);
    if h & 0xf000_0000 == 0 {
      NothingToFold(h);
      FoldNothing(h);
    } else {
      FoldSome(h);
    }
  }

  lemma FoldNothing(h: bv32)
    requires h & 0xf000_0000 == 0
    ensures Fold(h) == h & !0
  {
  }

  lemma FoldSome(h: bv32)
    requires h & 0xf000_0000 != 0
    ensures Fold(h) == (h ^ ((h & 0xf000_0000) >> 24)) & !(h & 0xf000_0000)
  {
  }

  lemma NothingToFold(h: bv32)
    ensures (h ^ 0) ^ (0 >> 24) == h && h & !0 == h
  {
  }

  lemma FoldBack(h: bv32)
    ensures (h ^ (h & 0xf000_0000)) ^ ((h & 0xf000_0000) >> 24) == (h ^ ((h & 0xf000_0000) >> 24)) & !(h & 0xf000_0000)
  {
  }

  method HashStep(hash: bv32, c: uint8) returns (h: bv32)
    ensures h == GabiStep(hash, c)
  {
    hide Fold;
    h := (hash << 4) + (c as bv32);
    BranchFreeFold(h);
    var g := h & 0xf000_0000;
    h := h ^ g;
    h := h ^ (g >> 24);
  }

  /** The hash of the string up to its first NUL. */
  method HashOf(name: seq<uint8>) returns (h: bv32)
    ensures h == GabiHash(CString(name))
  {
    hide GabiStep;
    h := 0;
    var i := 0;
    while i < |name| && name[i] != 0
      invariant i <= |name|
      invariant CString(name) == name[..i] + CString(name[i..])
      invariant h == GabiHash(name[..i])
    {
      h := HashStep(h, name[i]);
      assert name[..i + 1][..i] == name[..i];
      assert name[i..][1..] == name[i + 1..];
      i := i + 1;
    }
    assert CString(name) == name[..i];
  }

  // ---------------------------------------------------------------- the table

  function NumBuckets(n: nat): (r: nat)
    ensures r >= 2 && r % 2 == 0
    ensures n >= 256 ==> 32 * r <= n + 63 && n < 32 * (r + 1)
  {
    if n < 8 then 2
    else if n < 32 then 4
    else if n < 256 then 16
    else RoundUp(n / 32, 2)
  }

  function BucketOf(name: seq<uint8>, nbuckets: nat): (b: nat)
    requires nbuckets > 0
    ensures b < nbuckets
  {
    (GabiHash(CString(name)) as nat) % nbuckets
  }

  /** The bucket of symbol index `k`; index 0 is the null symbol. */
  function At(names: seq<seq<uint8>>, nb: nat, k: nat): (b: nat)
    requires nb > 0 && 1 <= k <= |names|
    ensures b < nb
  {
    BucketOf(names[k - 1], nb)
  }

  /** No symbol in `from + 1 .. to` belongs to bucket `b`. */
  predicate Misses(names: seq<seq<uint8>>, nb: nat, b: nat, from: nat, to: nat)
    requires nb > 0 && to <= |names|
  {
    forall j :: from < j <= to ==> At(names, nb, j) != b
  }

  /** The least symbol index in `from + 1 .. to` that belongs to bucket `b`; 0 if there is none. */
  function NextIn(names: seq<seq<uint8>>, nb: nat, b: nat, from: nat, to: nat): (k: nat)
    requires nb > 0 && to <= |names|
    ensures k == 0 || from < k <= to
    decreases if from < to then to - from else 0
  {
    if from >= to then 0
    else if At(names, nb, from + 1) == b then from + 1
    else NextIn(names, nb, b, from + 1, to)
  }

  lemma {:induction false} NextInIs(names: seq<seq<uint8>>, nb: nat, b: nat, from: nat, to: nat)
    requires nb > 0 && to <= |names|
    ensures var k := NextIn(names, nb, b, from, to);
            if k == 0 then Misses(names, nb, b, from, to)
            else At(names, nb, k) == b && Misses(names, nb, b, from, k - 1)
    decreases if from < to then to - from else 0
  {
    hide At;
    if from < to && At(names, nb, from + 1) != b {
      NextInIs(names, nb, b, from + 1, to);
    }
  }

  /** Bucket heads after the first `i` symbols: the first symbol of each bucket. */
  function Heads(names: seq<seq<uint8>>, nb: nat, i: nat): (t: seq<uint32>)
    requires nb > 0 && i <= |names| < WORD - 1
    ensures |t| == nb
  {
    seq(nb, b requires 0 <= b < nb => NextIn(names, nb, b, 0, i))
  }

  /** Chain links after the first `i` symbols: from each symbol to the next one of its bucket. */
  function Links(names: seq<seq<uint8>>, nb: nat, i: nat): (t: seq<uint32>)
    requires nb > 0 && i <= |names| < WORD - 1
    ensures |t| == |names| + 1
  {
    seq(|names| + 1, k requires 0 <= k <= |names| =>
      if 1 <= k <= i then NextIn(names, nb, At(names, nb, k), k, i) else 0)
  }

  function Table(names: seq<seq<uint8>>, nb: nat, i: nat): (t: seq<uint32>)
    requires 0 < nb < WORD && i <= |names| < WORD - 1
    ensures |t| == 2 + nb + |names| + 1
  {
    [nb, |names| + 1] + Heads(names, nb, i) + Links(names, nb, i)
  }

  /** One more symbol extends only the runs of its own bucket that had ended. */
  lemma {:induction false} NextInGrows(names: seq<seq<uint8>>, nb: nat, b: nat, from: nat, i: nat)
    requires nb > 0 && i < |names| && from <= i
    ensures NextIn(names, nb, b, from, i + 1) ==
            if NextIn(names, nb, b, from, i) == 0 && At(names, nb, i + 1) == b then i + 1
            else NextIn(names, nb, b, from, i)
    decreases i - from
  {
    hide At;
    if from < i {
      NextInGrows(names, nb, b, from + 1, i);
    }
  }

  /** A symbol that starts its bucket becomes the head, and nothing else changes. */
  lemma FirstOfBucket(names: seq<seq<uint8>>, nb: nat, i: nat)
    requires nb > 0 && i < |names| < WORD - 1
    requires NextIn(names, nb, At(names, nb, i + 1), 0, i) == 0
    ensures Heads(names, nb, i + 1) == Heads(names, nb, i)[At(names, nb, i + 1) := i + 1]
    ensures Links(names, nb, i + 1) == Links(names, nb, i)
  {
    hide At, NextIn;
    var b := At(names, nb, i + 1);
    NextInIs(names, nb, b, 0, i);
    var after, expected := Heads(names, nb, i + 1), Heads(names, nb, i)[b := i + 1];
    forall c | 0 <= c < nb ensures after[c] == expected[c] {
      NextInGrows(names, nb, c, 0, i);
    }
    forall k | 0 <= k <= |names| ensures Links(names, nb, i + 1)[k] == Links(names, nb, i)[k] {
      LinkGrows(names, nb, i, k);
    }
  }

  /** Otherwise it is linked from the last symbol of the bucket, and nothing else changes. */
  lemma LastOfBucket(names: seq<seq<uint8>>, nb: nat, i: nat, last: nat)
    requires nb > 0 && i < |names| < WORD - 1
    requires 1 <= last <= i && At(names, nb, last) == At(names, nb, i + 1)
    requires NextIn(names, nb, At(names, nb, last), last, i) == 0
    ensures Heads(names, nb, i + 1) == Heads(names, nb, i)
    ensures Links(names, nb, i + 1) == Links(names, nb, i)[last := i + 1]
  {
    hide At, NextIn;
    var b := At(names, nb, i + 1);
    NextInIs(names, nb, b, 0, i);
    NextInIs(names, nb, b, last, i);
    forall c | 0 <= c < nb ensures Heads(names, nb, i + 1)[c] == Heads(names, nb, i)[c] {
      NextInGrows(names, nb, c, 0, i);
    }
    var after, expected := Links(names, nb, i + 1), Links(names, nb, i)[last := i + 1];
    forall k | 0 <= k <= |names| ensures after[k] == expected[k] {
      NextInIs(names, nb, b, k, i);
      LinkGrows(names, nb, i, k);
    }
  }

  lemma LinkGrows(names: seq<seq<uint8>>, nb: nat, i: nat, k: nat)
    requires nb > 0 && i < |names| < WORD - 1 && k <= |names|
    ensures Links(names, nb, i + 1)[k] ==
            if 1 <= k <= i && Links(names, nb, i)[k] == 0 && At(names, nb, k) == At(names, nb, i + 1) then i + 1
            else Links(names, nb, i)[k]
  {
    hide At, NextIn;
    if 1 <= k <= i {
      NextInGrows(names, nb, At(names, nb, k), k, i);
    } else if k == i + 1 {
      assert NextIn(names, nb, At(names, nb, k), k, i + 1) == 0;
    }
  }

  lemma TableSetHead(names: seq<seq<uint8>>, nb: nat, i: nat, b: nat, v: uint32)
    requires 0 < nb < WORD && i <= |names| < WORD - 1 && b < nb
    ensures Table(names, nb, i)[2 + b := v] == [nb, |names| + 1] + Heads(names, nb, i)[b := v] + Links(names, nb, i)
    ensures Table(names, nb, i)[2 + b] == Heads(names, nb, i)[b] == NextIn(names, nb, b, 0, i)
  {
    hide NextIn, At;
  }

  lemma TableSetLink(names: seq<seq<uint8>>, nb: nat, i: nat, k: nat, v: uint32)
    requires 0 < nb < WORD && i <= |names| < WORD - 1 && k <= |names|
    ensures Table(names, nb, i)[2 + nb + k := v] == [nb, |names| + 1] + Heads(names, nb, i) +
              Links(names, nb, i)[k := v]
    ensures Table(names, nb, i)[2 + nb + k] == Links(names, nb, i)[k]
    ensures Links(names, nb, i)[k] == if 1 <= k <= i then NextIn(names, nb, At(names, nb, k), k, i) else 0
  {
    hide NextIn, At;
  }

  method BucketFor(name: seq<uint8>, nb: nat) returns (b: nat)
    requires nb > 0
    ensures b == BucketOf(name, nb)
  {
    hide GabiHash, CString;
    var hashed := HashOf(name);
    b := (hashed as nat) % nb;
  }

  /** Adds symbol index `i + 1`: at the head of an empty bucket, or at the end of its bucket's chain. */
  method Insert(names: seq<seq<uint8>>, nb: nat, i: nat, hash: array<uint32>)
    requires 0 < nb < WORD && i < |names| < WORD - 1
    requires hash[..] == Table(names, nb, i)
    modifies hash
    ensures hash[..] == Table(names, nb, i + 1)
  {
    hide NextIn, At, BucketOf;
    var index, buckets, chain := i + 1, 2, 2 + nb;
    var b := BucketFor(names[i], nb);
    assert b == At(names, nb, index) by { BucketIsAt(names, nb, index); }
    TableSetHead(names, nb, i, b, index);
    NextInIs(names, nb, b, 0, i);
    if hash[buckets + b] == 0 {
      FirstOfBucket(names, nb, i);
      hash[buckets + b] := index;
    } else {
      var at := hash[buckets + b];
      assert at < |names| + 1;
      while hash[chain + at] != 0
        invariant 1 <= at <= i && At(names, nb, at) == b
        invariant hash[..] == Table(names, nb, i)
        decreases i - at
      {
        TableSetLink(names, nb, i, at, index);
        NextInIs(names, nb, b, at, i);
        at := hash[chain + at];
        assert at < |names| + 1;
      }
      TableSetLink(names, nb, i, at, index);
      LastOfBucket(names, nb, i, at);
      assert hash[chain + index] == 0 by { TableSetLink(names, nb, i, index, 0); }
      hash[chain + at] := index;
    }
  }

  lemma BucketIsAt(names: seq<seq<uint8>>, nb: nat, k: nat)
    requires nb > 0 && 1 <= k <= |names|
    ensures At(names, nb, k) == BucketOf(names[k - 1], nb)
  {
  }

  method WriteHash(names: seq<seq<uint8>>) returns (hash: array<uint32>)
    requires |names| < WORD - 1
    ensures fresh(hash) && hash[..] == Table(names, NumBuckets(|names|), |names|)
  {
    hide NumBuckets, Table;
    var nb, chainSize := NumBuckets(|names|), |names| + 1;
    assert nb < WORD by { FewBuckets(|names|); }
    hash := new uint32[2 + nb + chainSize](_ => 0);
    hash[0], hash[1] := nb, chainSize;
    StartsEmpty(names, nb, hash[..]);
    for i := 0 to |names|
      invariant hash[..] == Table(names, nb, i)
    {
      Insert(names, nb, i, hash);
    }
  }

  lemma StartsEmpty(names: seq<seq<uint8>>, nb: nat, t: seq<uint32>)
    requires 0 < nb < WORD && |names| < WORD - 1 && |t| == 2 + nb + |names| + 1
    requires t[0] == nb && t[1] == |names| + 1 && forall j :: 2 <= j < |t| ==> t[j] == 0
    ensures t == Table(names, nb, 0)
  {
    EmptyTable(names, nb);
    hide Heads, Links;
    assert Table(names, nb, 0) == [nb, |names| + 1] + Cells(names, nb, 0);
  }

  lemma FewBuckets(n: nat)
    ensures NumBuckets(n) <= n + 2
  {
  }

  // ---------------------------------------------------------------- lookup

  /** The documented lookup, reading only the emitted words and string table. */
  method GetSym(hash: seq<uint32>, entries: seq<uint32>, strtab: seq<uint8>, name: seq<uint8>,
                ghost symbols: seq<Symbol>)
    returns (index: nat)
    requires |symbols| < WORD - 1 && hash == Table(NamesOf(symbols), NumBuckets(|symbols|), |symbols|)
    requires NamesWritten(entries, symbols) && Named(symbols, strtab)
    requires forall i :: 0 <= i < |name| ==> name[i] != 0
    ensures index <= |symbols|
    ensures index == 0 <==> (forall k :: 0 <= k < |symbols| ==> CString(symbols[k].name) != name)
    ensures index != 0 ==> CString(symbols[index - 1].name) == name
    ensures index != 0 ==> (forall k :: 0 <= k < index - 1 ==> CString(symbols[k].name) != name)
  {
    hide NextIn, BucketOf, NumBuckets, CString, GabiHash, Table, Heads, Links, At, Misses;
    ghost var names, n := NamesOf(symbols), |symbols|;
    FewBuckets(n);
    TableHeader(names, NumBuckets(n), n);
    var nb := hash[0];
    var b := BucketFor(name, nb);
    CStringWithoutNul(name);
    TableSetHead(names, nb, n, b, 0);
    index := hash[2 + b];
    ghost var passed := 0;
    while index != 0
      invariant passed <= n && index == NextIn(names, nb, b, passed, n)
      invariant forall k :: 0 <= k < passed ==> CString(symbols[k].name) != name
      decreases n - passed
    {
      NextInIs(names, nb, b, passed, n);
      NoneBetween(symbols, nb, name, passed, index - 1);
      var stName := entries[index];
      if CString(strtab[stName..]) == name {
        return;
      }
      passed := index;
      TableSetLink(names, nb, n, index, 0);
      index := hash[2 + nb + index];
    }
    NextInIs(names, nb, b, passed, n);
    NoneBetween(symbols, nb, name, passed, n);
  }

  lemma TableHeader(names: seq<seq<uint8>>, nb: nat, i: nat)
    requires 0 < nb < WORD && i <= |names| < WORD - 1
    ensures Table(names, nb, i)[0] == nb && Table(names, nb, i)[1] == |names| + 1
  {
  }

  /** Bytes of a string table with the first `k` names. */
  function StrtabSize(names: seq<seq<uint8>>, k: nat): nat
    requires k <= |names|
  {
    if k == 0 then 1 else StrtabSize(names, k - 1) + |names[k - 1]| + 1
  }

  lemma {:induction false} StrtabGrows(names: seq<seq<uint8>>, i: nat, j: nat)
    requires i <= j <= |names|
    ensures StrtabSize(names, i) <= StrtabSize(names, j)
    decreases j
  {
    if i < j {
      StrtabGrows(names, i, j - 1);
    }
  }

  /** Writing all three tables and looking a name up in them: the first symbol of that name, if there is one. */
  method WriteAndFind(names: seq<seq<uint8>>, name: seq<uint8>) returns (index: nat)
    requires |names| < WORD - 1 && StrtabSize(names, |names|) <= WORD
    requires forall i :: 0 <= i < |name| ==> name[i] != 0
    ensures index <= |names|
    ensures index == 0 <==> (forall k :: 0 <= k < |names| ==> CString(names[k]) != name)
    ensures index != 0 ==> CString(names[index - 1]) == name
    ensures index != 0 ==> (forall k :: 0 <= k < index - 1 ==> CString(names[k]) != name)
  {
    hide CString, Table, Named, NumBuckets, NamesWritten;
    var strtab := new StringTable();
    var symtab := new SymbolTable(strtab);
    AddSymbols(symtab, names);
    var entries := symtab.WriteNames();
    var hash := WriteHash(names);
    index := GetSym(hash[..], entries, strtab.buffer, name, symtab.symbols);
  }

  method AddSymbols(symtab: SymbolTable, names: seq<seq<uint8>>)
    requires StrtabSize(names, |names|) <= WORD && symtab.symbols == [] && symtab.strtab.buffer == [0]
    modifies symtab, symtab.strtab
    ensures Named(symtab.symbols, symtab.strtab.buffer) && NamesOf(symtab.symbols) == names
  {
    hide CString, Named;
    NothingNamed(symtab.strtab.buffer);
    for i := 0 to |names|
      invariant symtab.strtab.Valid() && |symtab.strtab.buffer| == StrtabSize(names, i)
      invariant Named(symtab.symbols, symtab.strtab.buffer) && NamesOf(symtab.symbols) == names[..i]
    {
      StrtabGrows(names, i + 1, |names|);
      symtab.AddSymbol(names[i]);
    }
  }

  lemma NothingNamed(buffer: seq<uint8>)
    ensures Named([], buffer)
  {
  }

  function NamesOf(symbols: seq<Symbol>): (names: seq<seq<uint8>>)
    ensures |names| == |symbols|
    ensures forall i :: 0 <= i < |names| ==> names[i] == symbols[i].name
  {
    seq(|symbols|, i requires 0 <= i < |symbols| => symbols[i].name)
  }

  predicate NamesWritten(entries: seq<uint32>, symbols: seq<Symbol>) {
    |entries| == |symbols| + 1 && forall i :: 1 <= i < |entries| ==> entries[i] == symbols[i - 1].nameIdx
  }

  /** Symbols of other buckets have other names. */
  lemma NoneBetween(symbols: seq<Symbol>, nb: nat, name: seq<uint8>, from: nat, to: nat)
    requires nb > 0 && from <= to <= |symbols|
    requires Misses(NamesOf(symbols), nb, BucketOf(name, nb), from, to) && CString(name) == name
    ensures forall k :: from <= k < to ==> CString(symbols[k].name) != name
  {
    hide CString, GabiHash;
    forall k | from <= k < to ensures CString(symbols[k].name) != name {
      BucketIsAt(NamesOf(symbols), nb, k + 1);
    }
  }

  lemma {:induction false} CStringWithoutNul(s: seq<uint8>)
    requires forall i :: 0 <= i < |s| ==> s[i] != 0
    ensures CString(s) == s
  {
    if s != [] {
      CStringWithoutNul(s[1..]);
    }
  }

  // ---------------------------------------------------------------- occurrences

  /** All bucket heads and chain links. */
  function Cells(names: seq<seq<uint8>>, nb: nat, i: nat): (t: seq<uint32>)
    requires nb > 0 && i <= |names| < WORD - 1
    ensures |t| == nb + |names| + 1
  {
    Heads(names, nb, i) + Links(names, nb, i)
  }

  /** The greatest symbol index up to `to` in bucket `b`; 0 if there is none. */
  function LastIn(names: seq<seq<uint8>>, nb: nat, b: nat, to: nat): (k: nat)
    requires nb > 0 && to <= |names|
    ensures k <= to
  {
    if to == 0 then 0 else if At(names, nb, to) == b then to else LastIn(names, nb, b, to - 1)
  }

  lemma {:induction false} LastInIs(names: seq<seq<uint8>>, nb: nat, b: nat, to: nat)
    requires nb > 0 && to <= |names|
    ensures var k := LastIn(names, nb, b, to);
            (k > 0 ==> At(names, nb, k) == b) && Misses(names, nb, b, k, to)
  {
    hide At;
    if to > 0 && At(names, nb, to) != b {
      LastInIs(names, nb, b, to - 1);
    }
  }

  lemma OneCellChanges(names: seq<seq<uint8>>, nb: nat, i: nat) returns (p: nat)
    requires nb > 0 && i < |names| < WORD - 1
    ensures p < nb + |names| + 1 && Cells(names, nb, i)[p] == 0
    ensures Cells(names, nb, i + 1) == Cells(names, nb, i)[p := i + 1]
  {
    hide At, NextIn, LastIn;
    var b := At(names, nb, i + 1);
    var last := LastIn(names, nb, b, i);
    LastInIs(names, nb, b, i);
    NextInIs(names, nb, b, last, i);
    if last == 0 {
      p := b;
      FirstOfBucket(names, nb, i);
    } else {
      p := nb + last;
      LastOfBucket(names, nb, i, last);
    }
  }

  /** Exactly the indexes 1..i occur, once each, beside `zeros` undefined indexes. */
  ghost predicate Counts(m: multiset<uint32>, zeros: nat, i: nat) {
    m[0] == zeros && (forall k: uint32 :: 1 <= k <= i ==> m[k] == 1) && (forall k: uint32 :: k > i ==> m[k] == 0)
  }

  lemma CountsStep(cells: seq<uint32>, p: nat, zeros: nat, i: uint32)
    requires p < |cells| && cells[p] == 0 && 0 < i && zeros > 0
    requires Counts(multiset(cells), zeros, i - 1)
    ensures Counts(multiset(cells[p := i]), zeros - 1, i)
  {
    assert multiset(cells[p := i]) == multiset(cells) - multiset{cells[p]} + multiset{i};
  }

  lemma {:induction false} Occurrences(names: seq<seq<uint8>>, nb: nat, i: nat)
    requires nb > 0 && i <= |names| < WORD - 1
    ensures Counts(multiset(Cells(names, nb, i)), nb + 1 + |names| - i, i)
  {
    hide *;
    if i == 0 {
      EmptyTable(names, nb);
      AllZero(Cells(names, nb, 0));
    } else {
      Occurrences(names, nb, i - 1);
      var p := OneCellChanges(names, nb, i - 1);
      CountsStep(Cells(names, nb, i - 1), p, nb + 2 + |names| - i, i);
    }
  }

  lemma EmptyTable(names: seq<seq<uint8>>, nb: nat)
    requires nb > 0 && |names| < WORD - 1
    ensures forall j :: 0 <= j < nb + |names| + 1 ==> Cells(names, nb, 0)[j] == 0
  {
    hide At;
  }

  lemma {:induction false} AllZero(s: seq<uint32>)
    requires forall i :: 0 <= i < |s| ==> s[i] == 0
    ensures Counts(multiset(s), |s|, 0)
  {
    if s != [] {
      AllZero(s[1..]);
      assert s == [s[0]] + s[1..];
    }
  }

  /** Of the finished table: every index 1..n once, and STN_UNDEF once more than there are buckets. */
  lemma EveryIndexOnce(names: seq<seq<uint8>>)
    requires |names| < WORD - 1
    ensures var nb := NumBuckets(|names|);
            var m := multiset(Cells(names, nb, |names|));
            Counts(m, nb + 1, |names|) && nb < WORD && Table(names, nb, |names|)[2..] == Cells(names, nb, |names|)
  {
    hide NumBuckets, Heads, Links;
    FewBuckets(|names|);
    Occurrences(names, NumBuckets(|names|), |names|);
  }
}
